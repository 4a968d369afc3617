/**
 * The helpers of cmdgen/genapi/gen.go: `trimTrailingEmptyLines`,
 * `trimBeforeKeyword`, and the part of `start` that derives the module,
 * file and group names of an API file from its path.
 *
 * Paths are slash-separated strings; `filepath.IsAbs`, `filepath.Ext`
 * and `filepath.Base` are modelled for Unix paths.
 */
module Gen {
  import opened Wrappers
  import opened StringHelpers
  import GenRouter
  import Sequences

  // ---------------------------------------------------------------------
  // trimTrailingEmptyLines
  // ---------------------------------------------------------------------

  /** `lines` without its trailing blank lines. */
  function TrimEnd(lines: seq<string>): (r: seq<string>)
    ensures |r| <= |lines| && r == lines[..|r|]
    ensures r == [] || !GenRouter.IsBlank(r[|r| - 1])
    ensures forall k | |r| <= k < |lines| :: GenRouter.IsBlank(lines[k])
  {
    if lines == [] || !GenRouter.IsBlank(lines[|lines| - 1]) then lines
    else TrimEnd(lines[..|lines| - 1])
  }

  /** `trimTrailingEmptyLines(lines)`: `end` walks back over blank lines. */
  method TrimTrailingEmptyLines(lines: seq<string>) returns (r: seq<string>)
    ensures r == TrimEnd(lines)
  {
    var end := |lines|;
    while end > 0 && |TrimSpace(lines[end - 1])| == 0
      invariant 0 <= end <= |lines|
      invariant TrimEnd(lines[..end]) == TrimEnd(lines)
    {
      TrimEndDropsBlank(lines, end);
      end := end - 1;
    }
    assert lines[..|lines|] == lines;
    r := lines[..end];
  }

  /** A blank last line of a prefix is trimmed away with it. */
  lemma TrimEndDropsBlank(lines: seq<string>, end: nat)
    requires 0 < end <= |lines| && GenRouter.IsBlank(lines[end - 1])
    ensures TrimEnd(lines[..end]) == TrimEnd(lines[..end - 1])
  {
    assert lines[..end][..end - 1] == lines[..end - 1];
  }

  /**
   * `TrimEnd` is the only prefix that ends in a non-blank line (or is
   * empty) and leaves out nothing but blank lines.
   */
  lemma {:induction false} TrimEndUnique(lines: seq<string>, p: nat)
    requires p <= |lines|
    requires p == 0 || !GenRouter.IsBlank(lines[p - 1])
    requires forall k | p <= k < |lines| :: GenRouter.IsBlank(lines[k])
    ensures TrimEnd(lines) == lines[..p]
  {
    var r := TrimEnd(lines);
    if |r| > p {
      assert false;
    }
  }

  /** Trimming twice is trimming once. */
  lemma TrimEndIdempotent(lines: seq<string>)
    ensures TrimEnd(TrimEnd(lines)) == TrimEnd(lines)
  {
    var r := TrimEnd(lines);
    TrimEndUnique(r, |r|);
    assert r[..|r|] == r;
  }

  // ---------------------------------------------------------------------
  // trimBeforeKeyword
  // ---------------------------------------------------------------------

  /** `strings.Index(s, sub)`: the first position of `sub` in `s`, or -1. */
  function Index(s: string, sub: string): (r: int)
    ensures r >= -1 && (r == -1 <==> !Contains(s, sub))
    ensures r >= 0 ==> OccursAt(s, sub, r) && forall j | 0 <= j < r :: !OccursAt(s, sub, j)
  {
    if HasPrefix(s, sub) then 0
    else if s == [] then -1
    else
      var i := Index(s[1..], sub);
      IndexShift(s, sub, i);
      if i == -1 then -1 else i + 1
  }

  /** Positions in `s[1..]` are positions in `s`, one further on. */
  lemma IndexShift(s: string, sub: string, i: int)
    requires s != [] && !HasPrefix(s, sub)
    requires i == -1 <==> !Contains(s[1..], sub)
    requires i >= 0 ==> OccursAt(s[1..], sub, i) && forall j | 0 <= j < i :: !OccursAt(s[1..], sub, j)
    ensures i >= 0 ==> OccursAt(s, sub, i + 1) && forall j | 0 <= j < i + 1 :: !OccursAt(s, sub, j)
  {
    if i >= 0 {
      assert s[i + 1..i + 1 + |sub|] == s[1..][i..i + |sub|];
      forall j | 0 <= j < i + 1 ensures !OccursAt(s, sub, j) {
        if j > 0 {
          assert !OccursAt(s[1..], sub, j - 1);
          if j + |sub| <= |s| {
            TailSlice(s, j, |sub|);
          }
        } else {
          assert !OccursAt(s, sub, 0) by {
            if |sub| <= |s| {
              assert s[0..|sub|] == s[..|sub|];
              assert s[..|sub|] != sub;
            }
          }
        }
      }
    }
  }

  /** A slice of `s` away from its head is a slice of `s[1..]`. */
  lemma TailSlice(s: string, j: nat, n: nat)
    requires 0 < j && j + n <= |s|
    ensures s[j..j + n] == s[1..][j - 1..j - 1 + n]
  {
    var l, r := s[j..j + n], s[1..][j - 1..j - 1 + n];
    forall k | 0 <= k < n ensures l[k] == r[k] {
      assert s[1..][j - 1 + k] == s[j + k];
    }
    assert l == r;
  }

  /**
   * `trimBeforeKeyword(path, keyword)`: "" when `keyword` does not occur,
   * else what follows its first occurrence and one more character (the
   * `/`).  Slicing past the end panics, which `Err` stands for.
   */
  function TrimBeforeKeyword(path: string, keyword: string): (r: Result<string>)
    ensures !Contains(path, keyword) ==> r == Ok("")
    ensures r.Err? <==> Contains(path, keyword) && Index(path, keyword) + |keyword| == |path|
    ensures r.Ok? && Contains(path, keyword) ==>
      var start := |path| - |r.value|;
      start == Index(path, keyword) + |keyword| + 1 && r.value == path[start..]
  {
    var index := Index(path, keyword);
    if index == -1 then Ok("")
    else if index + |keyword| + 1 > |path| then Err("slice bounds out of range")
    else Ok(path[index + |keyword| + 1..])
  }

  /**
   * A path made of a part free of the keyword, the keyword, a separator
   * and a rest gives back the rest.
   */
  lemma TrimBeforeKeywordSplits(pre: string, keyword: string, sep: char, rest: string)
    requires forall j | 0 <= j < |pre| :: !OccursAt(pre + keyword, keyword, j)
    ensures TrimBeforeKeyword(pre + keyword + [sep] + rest, keyword) == Ok(rest)
  {
    var path := pre + keyword + [sep] + rest;
    assert OccursAt(path, keyword, |pre|) by {
      assert path[|pre|..|pre| + |keyword|] == keyword;
    }
    ContainsAt(path, keyword);
    forall j | 0 <= j < |pre| ensures !OccursAt(path, keyword, j) {
      assert !OccursAt(pre + keyword, keyword, j);
      assert path[..|pre| + |keyword|] == pre + keyword;
      assert path[j..j + |keyword|] == (pre + keyword)[j..j + |keyword|];
    }
    assert Index(path, keyword) != -1;
    assert path[|pre| + |keyword| + 1..] == rest;
  }

  // ---------------------------------------------------------------------
  // The names derived in `start`
  // ---------------------------------------------------------------------

  /** `filepath.IsAbs` on Unix. */
  predicate IsAbs(path: string)
  {
    path != [] && path[0] == '/'
  }

  /** `filepath.Ext`: from the last `.` of the final element, or "". */
  function Ext(path: string): (e: string)
    ensures |e| <= |path| && e == path[|path| - |e|..]
    ensures e != [] ==> e[0] == '.' && '/' !in e && '.' !in e[1..]
  {
    if path == [] || path[|path| - 1] == '/' then ""
    else if path[|path| - 1] == '.' then "."
    else
      var e := Ext(path[..|path| - 1]);
      if e == [] then "" else e + [path[|path| - 1]]
  }

  /** `strings.TrimSuffix(s, suffix)` */
  function TrimSuffix(s: string, suffix: string): (r: string)
    ensures |suffix| <= |s| && s[|s| - |suffix|..] == suffix ==> r + suffix == s
    ensures !(|suffix| <= |s| && s[|s| - |suffix|..] == suffix) ==> r == s
  {
    if |suffix| <= |s| && s[|s| - |suffix|..] == suffix then s[..|s| - |suffix|] else s
  }

  /** `path` without its trailing slashes. */
  function TrimTrailingSlashes(path: string): (r: string)
    ensures |r| <= |path| && r == path[..|r|] && (r == [] || r[|r| - 1] != '/')
    ensures forall k | |r| <= k < |path| :: path[k] == '/'
  {
    if path != [] && path[|path| - 1] == '/' then TrimTrailingSlashes(path[..|path| - 1]) else path
  }

  /** What follows the last slash of `path`. */
  function AfterLastSlash(path: string): (r: string)
    ensures |r| <= |path| && r == path[|path| - |r|..] && '/' !in r
    ensures |r| < |path| ==> path[|path| - |r| - 1] == '/'
  {
    if path == [] || path[|path| - 1] == '/' then ""
    else AfterLastSlash(path[..|path| - 1]) + [path[|path| - 1]]
  }

  /** `filepath.Base`: the final element, "." for "" and "/" for slashes only. */
  function Base(path: string): (r: string)
    ensures r != []
    ensures r == "/" || '/' !in r
  {
    if path == [] then "."
    else
      var t := TrimTrailingSlashes(path);
      if t == [] then "/" else AfterLastSlash(t)
  }

  /** The base name of a file without its extension: `nowFilePrefixName`. */
  function FilePrefix(filename: string): (r: string)
    ensures r != [] && (r == "/" || '/' !in r)
  {
    Base(TrimSuffix(filename, Ext(filename)))
  }

  /** A final element with an extension loses exactly the extension. */
  lemma FilePrefixDropsExtension(dir: string, name: string, ext: string)
    requires dir == [] || dir[|dir| - 1] == '/'
    requires name != [] && '/' !in name && '.' !in name
    requires ext != [] && ext[0] == '.' && '/' !in ext && '.' !in ext[1..]
    ensures Ext(dir + name + ext) == ext
    ensures FilePrefix(dir + name + ext) == name
  {
    var path := dir + name + ext;
    ExtOfSuffix(dir + name, ext);
    assert TrimSuffix(path, ext) == dir + name;
    assert TrimTrailingSlashes(dir + name) == dir + name;
    AfterLastSlashOf(dir, name);
  }

  /** The extension of a name followed by a dotted suffix is that suffix. */
  lemma {:induction false} ExtOfSuffix(head: string, ext: string)
    requires head != [] && head[|head| - 1] != '.' && head[|head| - 1] != '/'
    requires ext != [] && ext[0] == '.' && '/' !in ext && '.' !in ext[1..]
    ensures Ext(head + ext) == ext
  {
    if |ext| > 1 {
      var n := |ext| - 1;
      ExtOfSuffix(head, ext[..n]);
      assert (head + ext)[..|head + ext| - 1] == head + ext[..n];
      assert ext[..n] + [ext[n]] == ext;
    } else {
      assert (head + ext)[|head + ext| - 1] == '.';
    }
  }

  /** After the last slash of a directory followed by a slash-free name: the name. */
  lemma {:induction false} AfterLastSlashOf(dir: string, name: string)
    requires dir == [] || dir[|dir| - 1] == '/'
    requires '/' !in name
    ensures AfterLastSlash(dir + name) == name
  {
    if name != [] {
      var n := |name| - 1;
      var path := dir + name;
      AfterLastSlashOf(dir, name[..n]);
      Sequences.InitLast(name);
      Sequences.AppendAssoc(dir, name[..n], [name[n]]);
      Sequences.InitLast(path);
      assert path[|path| - 1] == name[n];
    } else {
      assert dir + name == dir;
    }
  }

  /** The characters `strings.FieldsFunc` splits the name on. */
  predicate IsNameSeparator(c: char)
  {
    c == ',' || c == ';' || c == '|' || c == ':' || c == '_' || c == '-'
  }

  /** `s` split at every separator, empty pieces included. */
  function Pieces(s: string): (ps: seq<string>)
    ensures |ps| >= 1
    ensures forall i, j | 0 <= i < |ps| && 0 <= j < |ps[i]| :: !IsNameSeparator(ps[i][j])
  {
    if s == [] then [""]
    else if IsNameSeparator(s[0]) then [""] + Pieces(s[1..])
    else
      var rest := Pieces(s[1..]);
      [[s[0]] + rest[0]] + rest[1..]
  }

  /** The non-empty pieces, in order. */
  function NonEmpty(ps: seq<string>): (fs: seq<string>)
    ensures forall i | 0 <= i < |fs| :: fs[i] != [] && fs[i] in ps
  {
    if ps == [] then [] else (if ps[0] == [] then [] else [ps[0]]) + NonEmpty(ps[1..])
  }

  /** `strings.FieldsFunc(s, isSeparator)`: the maximal runs of non-separators. */
  function Fields(s: string): seq<string>
  {
    NonEmpty(Pieces(s))
  }

  /** The concatenation of some strings. */
  function Concat(ps: seq<string>): string
  {
    if ps == [] then "" else ps[0] + Concat(ps[1..])
  }

  /** `s` with its separators left out. */
  function RemoveSeparators(s: string): (r: string)
    ensures forall j | 0 <= j < |r| :: !IsNameSeparator(r[j])
  {
    if s == [] then "" else (if IsNameSeparator(s[0]) then "" else [s[0]]) + RemoveSeparators(s[1..])
  }

  lemma {:induction false} ConcatNonEmpty(ps: seq<string>)
    ensures Concat(NonEmpty(ps)) == Concat(ps)
  {
    if ps != [] {
      ConcatNonEmpty(ps[1..]);
      if ps[0] == [] {
        assert NonEmpty(ps) == NonEmpty(ps[1..]);
      } else {
        assert NonEmpty(ps) == [ps[0]] + NonEmpty(ps[1..]);
      }
    }
  }

  lemma {:induction false} ConcatPieces(s: string)
    ensures Concat(Pieces(s)) == RemoveSeparators(s)
  {
    if s != [] {
      ConcatPieces(s[1..]);
      var rest := Pieces(s[1..]);
      if IsNameSeparator(s[0]) {
        assert Pieces(s)[1..] == rest;
      } else {
        var ps := [[s[0]] + rest[0]] + rest[1..];
        assert ps[1..] == rest[1..];
        assert Concat(rest) == rest[0] + Concat(rest[1..]);
      }
    }
  }

  /**
   * The fields of a name: non-empty, free of separators, and together the
   * name with its separators left out.
   */
  lemma FieldsOfName(s: string)
    ensures forall i | 0 <= i < |Fields(s)| :: Fields(s)[i] != []
    ensures forall i, j | 0 <= i < |Fields(s)| && 0 <= j < |Fields(s)[i]| :: !IsNameSeparator(Fields(s)[i][j])
    ensures Concat(Fields(s)) == RemoveSeparators(s)
  {
    ConcatNonEmpty(Pieces(s));
    ConcatPieces(s);
    forall i, j | 0 <= i < |Fields(s)| && 0 <= j < |Fields(s)[i]| ensures !IsNameSeparator(Fields(s)[i][j]) {
      var f := Fields(s)[i];
      var k :| 0 <= k < |Pieces(s)| && Pieces(s)[k] == f;
    }
  }

  /** A name without separators is its own single field. */
  lemma {:induction false} FieldsOfPlainName(s: string)
    requires s != [] && forall j | 0 <= j < |s| :: !IsNameSeparator(s[j])
    ensures Fields(s) == [s]
  {
    PiecesOfPlain(s);
    assert NonEmpty([s]) == [s] + NonEmpty([]);
  }

  lemma {:induction false} PiecesOfPlain(s: string)
    requires forall j | 0 <= j < |s| :: !IsNameSeparator(s[j])
    ensures Pieces(s) == [s]
  {
    if s != [] {
      PiecesOfPlain(s[1..]);
      assert [s[0]] + s[1..] == s;
    }
  }

  /** The upper-camel concatenation built in `start` from the fields. */
  function ConcatUcFirst(ps: seq<string>): string
  {
    if ps == [] then "" else UcFirst(ps[0]) + ConcatUcFirst(ps[1..])
  }

  /** `fileFinalName`: the fields in upper camel case when there are several, else the prefix with its first letter upper-cased. */
  function FinalName(prefix: string): (r: string)
    ensures |Fields(prefix)| <= 1 ==> r == UcFirst(prefix) && ToLower(r) == ToLower(prefix)
  {
    ToLowerUcFirst(prefix);
    var parts := Fields(prefix);
    if |parts| > 1 then ConcatUcFirst(parts) else UcFirst(prefix)
  }

  lemma ToLowerUcFirst(p: string)
    ensures ToLower(UcFirst(p)) == ToLower(p)
  {
    if p != [] {
      assert ToLowerChar(ToUpperChar(p[0])) == ToLowerChar(p[0]);
      assert forall i | 0 <= i < |p| :: ToLower(UcFirst(p))[i] == ToLower(p)[i];
    }
  }

  lemma {:induction false} ToLowerConcatUcFirst(ps: seq<string>)
    ensures ToLower(ConcatUcFirst(ps)) == ToLower(Concat(ps))
  {
    if ps != [] {
      ToLowerConcatUcFirst(ps[1..]);
      ToLowerAppend(UcFirst(ps[0]), ConcatUcFirst(ps[1..]));
      ToLowerAppend(ps[0], Concat(ps[1..]));
      ToLowerUcFirst(ps[0]);
    }
  }

  /**
   * The name `s` in upper camel case, character by character: separators
   * are left out, a character that starts the name (`atStart`) or follows
   * a separator is upper-cased, and every other character is kept.
   */
  function Camelize(s: string, atStart: bool): (r: string)
    ensures |r| == |RemoveSeparators(s)|
  {
    if s == [] then ""
    else if IsNameSeparator(s[0]) then Camelize(s[1..], true)
    else [if atStart then ToUpperChar(s[0]) else s[0]] + Camelize(s[1..], false)
  }

  /** Upper-casing each field's first character and joining the fields is camelizing the name. */
  lemma {:induction false} CamelizePieces(t: string)
    ensures var ps := Pieces(t);
      && Camelize(t, false) == ps[0] + ConcatUcFirst(NonEmpty(ps[1..]))
      && Camelize(t, true) == ConcatUcFirst(NonEmpty(ps))
  {
    if t != [] {
      CamelizePieces(t[1..]);
      if IsNameSeparator(t[0]) {
        CamelizeSeparator(t);
      } else {
        CamelizeLetter(t);
      }
    }
  }

  /** The step of `CamelizePieces` past a separator: it opens an empty field. */
  lemma CamelizeSeparator(t: string)
    requires t != [] && IsNameSeparator(t[0])
    requires var rest := Pieces(t[1..]);
      Camelize(t[1..], true) == ConcatUcFirst(NonEmpty(rest))
    ensures var ps := Pieces(t);
      && Camelize(t, false) == ps[0] + ConcatUcFirst(NonEmpty(ps[1..]))
      && Camelize(t, true) == ConcatUcFirst(NonEmpty(ps))
  {
    var rest := Pieces(t[1..]);
    assert Pieces(t) == [""] + rest;
    assert ([""] + rest)[1..] == rest;
    assert NonEmpty([""] + rest) == NonEmpty(rest);
  }

  /** A name character extends the first piece of the rest of the name. */
  lemma PiecesLetter(t: string)
    requires t != [] && !IsNameSeparator(t[0])
    ensures var rest := Pieces(t[1..]);
      && Pieces(t)[0] == [t[0]] + rest[0]
      && Pieces(t)[1..] == rest[1..]
      && NonEmpty(Pieces(t)) == [Pieces(t)[0]] + NonEmpty(rest[1..])
  {
    var rest := Pieces(t[1..]);
    assert Pieces(t) == [[t[0]] + rest[0]] + rest[1..];
  }

  /** The step of `CamelizePieces` past a name character: it joins the first field. */
  lemma CamelizeLetter(t: string)
    requires t != [] && !IsNameSeparator(t[0])
    requires var rest := Pieces(t[1..]);
      Camelize(t[1..], false) == rest[0] + ConcatUcFirst(NonEmpty(rest[1..]))
    ensures var ps := Pieces(t);
      && Camelize(t, false) == ps[0] + ConcatUcFirst(NonEmpty(ps[1..]))
      && Camelize(t, true) == ConcatUcFirst(NonEmpty(ps))
  {
    PiecesLetter(t);
    var rest := Pieces(t[1..]);
    var tail := ConcatUcFirst(NonEmpty(rest[1..]));
    JoinFirst(t[0], rest[0], tail, Camelize(t[1..], false));
  }

  /** Camelizing a name character by character, seen as one joined first field. */
  lemma JoinFirst(c: char, first: string, tail: string, rest: string)
    requires rest == first + tail
    ensures [c] + rest == ([c] + first) + tail
    ensures [ToUpperChar(c)] + rest == UcFirst([c] + first) + tail
  {
    assert UcFirst([c] + first) == [ToUpperChar(c)] + first;
  }

  /**
   * A name of several fields becomes the name camelized: `user_info`
   * gives `UserInfo`, as long as the name with its separators left out.
   */
  lemma FinalNameCamelizes(prefix: string)
    requires |Fields(prefix)| > 1
    ensures FinalName(prefix) == Camelize(prefix, true)
    ensures |FinalName(prefix)| == |RemoveSeparators(prefix)|
  {
    CamelizePieces(prefix);
  }

  /**
   * Up to case, a name of several fields becomes the name with its
   * separators removed: `user_info` gives `UserInfo`.
   */
  lemma FinalNameIgnoringCase(prefix: string)
    requires |Fields(prefix)| > 1
    ensures ToLower(FinalName(prefix)) == ToLower(RemoveSeparators(prefix))
  {
    FieldsOfName(prefix);
    ToLowerConcatUcFirst(Fields(prefix));
  }

  /** The module of a trimmed API path: "" for `dir/file`, the middle part for `dir/module/file`, none otherwise. */
  function ModuleOf(newFilePath: string): (m: Option<string>)
    ensures m.Some? <==> |Split(newFilePath, '/')| == 2 || |Split(newFilePath, '/')| == 3
    ensures m.Some? ==> '/' !in m.value
  {
    var parts := Split(newFilePath, '/');
    if |parts| == 2 then Some("")
    else if |parts| == 3 then Some(parts[1])
    else None
  }

  /** `dir/file` lies in the root module, "". */
  lemma ModuleOfTwoParts(dir: string, file: string)
    requires '/' !in dir && '/' !in file
    ensures ModuleOf(dir + "/" + file) == Some("")
  {
    SplitOfPlain(dir, file);
    SplitFirst(dir, '/', "");
    assert dir + "/" + file == dir + ['/'] + file;
  }

  /** `dir/module/file` lies in `module`. */
  lemma ModuleOfThreeParts(dir: string, moduleDir: string, file: string)
    requires '/' !in dir && '/' !in moduleDir && '/' !in file
    ensures ModuleOf(dir + "/" + moduleDir + "/" + file) == Some(moduleDir)
  {
    var path := dir + "/" + moduleDir + "/" + file;
    SplitOfPlain(dir + "/" + moduleDir, file);
    SplitOfPlain(dir, moduleDir);
    SplitFirst(dir, '/', "");
    assert path == (dir + "/" + moduleDir) + ['/'] + file;
  }

  /** Splitting `head` + "/" + a slash-free `tail` adds `tail` as one more part. */
  lemma {:induction false} SplitOfPlain(head: string, tail: string)
    requires '/' !in tail
    ensures Split(head + ['/'] + tail, '/') == Split(head, '/') + [tail]
  {
    if head == [] {
      assert head + ['/'] + tail == ['/'] + tail;
      SplitFirst(tail, '/', "");
      assert ([] + ['/'] + tail)[1..] == tail;
    } else {
      SplitOfPlain(head[1..], tail);
      assert (head + ['/'] + tail)[1..] == head[1..] + ['/'] + tail;
    }
  }

  /** The generator fields `start` assigns. */
  class Generator {
    const packageName: string
    const output: string
    var moduleName: string
    var fileName: string
    var nowFilePrefixName: string
    var groupName: string
    var fileFinalName: string

    constructor (packageName: string, output: string)
      ensures this.packageName == packageName && this.output == output
      ensures moduleName == "" && fileName == "" && nowFilePrefixName == "" && groupName == "" && fileFinalName == ""
    {
      this.packageName := packageName;
      this.output := output;
      moduleName, fileName, nowFilePrefixName, groupName, fileFinalName := "", "", "", "", "";
    }

    /**
     * The name derivation at the head of `start(filename)`.  `Err`: a
     * `trimBeforeKeyword` panicked; `Ok(false)`: the path has the wrong
     * number of parts and the file is skipped; `Ok(true)`: the names are set.
     */
    method Start(filename: string) returns (r: Result<bool>)
      modifies this
      ensures ModuleFor(filename, packageName).Err? ==> r.Err? && unchanged(this)
      ensures ModuleFor(filename, packageName) == Ok(None) ==> r == Ok(false) && unchanged(this)
      ensures ModuleFor(filename, packageName).Ok? && ModuleFor(filename, packageName).value.Some? ==>
        && moduleName == ModuleFor(filename, packageName).value.value
        && (r.Err? <==> TrimBeforeKeyword(output, packageName).Err?)
        && r != Ok(false)
      ensures r.Err? ==>
        && fileName == old(fileName) && nowFilePrefixName == old(nowFilePrefixName)
        && groupName == old(groupName) && fileFinalName == old(fileFinalName)
      ensures r == Ok(true) ==> Current() == NamesOf(filename)
    {
      var found := FindModule(filename, packageName);
      if found.Err? {
        return Err(found.msg);
      }
      if found.value.None? {
        return Ok(false);
      }
      moduleName := found.value.value;
      r := SetNames(filename);
    }

    /** The rest of the head of `start`: the output directory is trimmed, then the names are set. */
    method SetNames(filename: string) returns (r: Result<bool>)
      modifies this
      ensures moduleName == old(moduleName)
      ensures r.Err? <==> TrimBeforeKeyword(output, packageName).Err?
      ensures r.Err? ==> unchanged(this)
      ensures r.Ok? ==> r == Ok(true) && Current() == NamesOf(filename)
    {
      var trimmedOutput := TrimBeforeKeyword(output, packageName);
      if trimmedOutput.Err? {
        return Err(trimmedOutput.msg);
      }
      var names := DeriveNames(filename);
      SetFields(names);
      return Ok(true);
    }

    /** The four names the generator holds. */
    function Current(): Names
      reads this
    {
      Names(fileName, nowFilePrefixName, groupName, fileFinalName)
    }

    /** The assignments that end the head of `start`. */
    method SetFields(names: Names)
      modifies this
      ensures Current() == names && moduleName == old(moduleName)
    {
      fileName, nowFilePrefixName, groupName, fileFinalName := names.fileName, names.nowFilePrefixName, names.groupName, names.fileFinalName;
    }
  }

  /** The path `start` splits: the path after the package name when absolute, else the file name as given. */
  function NewFilePath(filename: string, packageName: string): (r: Result<string>)
    ensures r.Err? <==> TrimBeforeKeyword(filename, packageName).Err?
    ensures r.Ok? && !IsAbs(filename) ==> r.value == filename
  {
    var trimmed := TrimBeforeKeyword(filename, packageName);
    if trimmed.Err? then Err(trimmed.msg)
    else Ok(if IsAbs(filename) then trimmed.value else filename)
  }

  /** The module `start` finds for a file: `Err` when trimming panics, `None` when the file is skipped. */
  function ModuleFor(filename: string, packageName: string): Result<Option<string>>
  {
    var path := NewFilePath(filename, packageName);
    if path.Err? then Err(path.msg) else Ok(ModuleOf(path.value))
  }

  /** The first statements of `start`: trim the path, split it at `/` and pick the module by the number of parts. */
  method FindModule(filename: string, packageName: string) returns (found: Result<Option<string>>)
    ensures found == ModuleFor(filename, packageName)
  {
    var trimmed := TrimBeforeKeyword(filename, packageName);
    if trimmed.Err? {
      return Err(trimmed.msg);
    }
    var newFilePath := Ternary(IsAbs(filename), trimmed.value, filename);
    var filePathArr := Split(newFilePath, '/');
    if |filePathArr| == 2 {
      found := Ok(Some(""));
    } else if |filePathArr| == 3 {
      found := Ok(Some(filePathArr[1]));
    } else {
      found := Ok(None);
    }
  }

  /** The four names `start` sets for an API file. */
  datatype Names = Names(fileName: string, nowFilePrefixName: string, groupName: string, fileFinalName: string)

  /**
   * The names of a file: its base name without extension, that name with
   * ".go", the fields of the name joined by `/`, and the final name.
   */
  function NamesOf(filename: string): Names
  {
    var prefix := FilePrefix(filename);
    Names(prefix + ".go", prefix, Join(Fields(prefix), '/'), FinalName(prefix))
  }

  /** The statements of `start` that compute the names from the file name. */
  method DeriveNames(filename: string) returns (names: Names)
    ensures names == NamesOf(filename)
  {
    var prefix := Base(TrimSuffix(filename, Ext(filename)));
    var parts := Fields(prefix);
    var finalName;
    if |parts| > 1 {
      finalName := UpperCamel(parts);
    } else {
      finalName := UcFirst(prefix);
    }
    names := Names(prefix + ".go", prefix, Join(parts, '/'), finalName);
  }

  /** The `strings.Builder` loop of `start` writing `UcFirst` of each field. */
  method UpperCamel(parts: seq<string>) returns (name: string)
    ensures name == ConcatUcFirst(parts)
  {
    name := "";
    for k := 0 to |parts|
      invariant name + ConcatUcFirst(parts[k..]) == ConcatUcFirst(parts)
    {
      assert parts[k..][1..] == parts[k + 1..];
      var piece := UcFirst(parts[k]);
      assert ConcatUcFirst(parts[k..]) == piece + ConcatUcFirst(parts[k + 1..]);
      Sequences.AppendAssoc(name, piece, ConcatUcFirst(parts[k + 1..]));
      name := name + piece;
    }
  }

  /**
   * Eager evaluation: a relative path whose first occurrence of the
   * package name ends it makes `start` panic although the trimmed path is
   * not used.
   */
  lemma RelativePathCanPanic()
    ensures !IsAbs("x/api") && TrimBeforeKeyword("x/api", "api").Err?
  {
    var path := "x/api";
    assert OccursAt(path, "api", 2) by {
      assert path[2..5] == "api";
    }
    ContainsAt(path, "api");
    assert !OccursAt(path, "api", 0) by {
      assert path[0..3] != "api" by {
        assert path[0..3][0] == 'x';
      }
    }
    assert !OccursAt(path, "api", 1) by {
      assert path[1..4][0] == '/';
    }
  }
}
