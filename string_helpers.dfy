/**
 * The string helpers of pkg/gzutil/func.go: camel-case splitting,
 * first-letter case, RESTful path splitting, membership, and user-agent
 * classification.
 *
 * Strings are sequences of characters.  Go's upper/lower-casing is
 * modelled for ASCII letters; other characters are left as they are.
 */
module StringHelpers {
  import Sequences

  predicate IsUpper(c: char)
  {
    'A' <= c <= 'Z'
  }

  predicate IsLower(c: char)
  {
    'a' <= c <= 'z'
  }

  function ToUpperChar(c: char): (r: char)
    ensures IsLower(c) ==> IsUpper(r)
    ensures !IsLower(c) ==> r == c
  {
    if IsLower(c) then (c as int - 32) as char else c
  }

  function ToLowerChar(c: char): (r: char)
    ensures IsUpper(c) ==> IsLower(r)
    ensures !IsUpper(c) ==> r == c
  {
    if IsUpper(c) then (c as int + 32) as char else c
  }

  /** `strings.ToLower`, character by character. */
  function ToLower(s: string): (r: string)
    ensures |r| == |s| && forall i | 0 <= i < |s| :: r[i] == ToLowerChar(s[i])
  {
    if s == [] then [] else [ToLowerChar(s[0])] + ToLower(s[1..])
  }

  /** Lower-casing twice is lower-casing once. */
  lemma ToLowerIdempotent(s: string)
    ensures ToLower(ToLower(s)) == ToLower(s)
  {
    assert forall i | 0 <= i < |s| :: ToLowerChar(ToLowerChar(s[i])) == ToLowerChar(s[i]);
  }

  /** Lower-casing works piece by piece. */
  lemma ToLowerAppend(a: string, b: string)
    ensures ToLower(a + b) == ToLower(a) + ToLower(b)
  {
    var l, r := ToLower(a + b), ToLower(a) + ToLower(b);
    forall i | 0 <= i < |l|
      ensures l[i] == r[i]
    {
      if i < |a| {
        assert (a + b)[i] == a[i];
      } else {
        assert (a + b)[i] == b[i - |a|];
      }
    }
    assert l == r;
  }

  /** `r | ' '` on a rune: bit 5 set. */
  function SetBit5(c: char): (r: char)
    ensures IsUpper(c) ==> r == ToLowerChar(c)
    ensures IsLower(c) || '0' <= c <= '9' ==> r == c
    ensures !IsUpper(r)
  {
    if (c as int / 32) % 2 == 1 then c
    else
      assert c as int < 0xD800 ==> c as int + 32 < 0xD800;
      (c as int + 32) as char
  }

  /** What the loop body of `SeparateCamel` writes for the rune `c` at position `i`. */
  function CamelPiece(i: nat, c: char, separator: string): string
  {
    (if i > 0 && IsUpper(c) then separator else []) + [SetBit5(c)]
  }

  /** The text `SeparateCamel` builds from `name`, one piece per rune. */
  function Camel(name: string, separator: string): string
  {
    if name == [] then []
    else Camel(name[..|name| - 1], separator) + CamelPiece(|name| - 1, name[|name| - 1], separator)
  }

  /** `SeparateCamel(name, separator)`, with the builder as a string. */
  method SeparateCamel(name: string, separator: string) returns (result: string)
    ensures result == Camel(name, separator)
  {
    result := [];
    for i := 0 to |name|
      invariant result == Camel(name[..i], separator)
    {
      if i > 0 && IsUpper(name[i]) {
        result := result + separator;
      }
      result := result + [SetBit5(name[i])];
      assert name[..i + 1][..i] == name[..i];
    }
    assert name[..|name|] == name;
  }

  /** The number of capitals of `name` after its first rune. */
  function InnerCapitals(name: string): nat
  {
    if |name| <= 1 then 0
    else InnerCapitals(name[..|name| - 1]) + (if IsUpper(name[|name| - 1]) then 1 else 0)
  }

  /** One separator per capital after the first rune, one output rune per input rune. */
  lemma {:induction false} CamelLength(name: string, separator: string)
    ensures |Camel(name, separator)| == |name| + |separator| * InnerCapitals(name)
  {
    if name != [] {
      var init := name[..|name| - 1];
      CamelLength(init, separator);
      var c := InnerCapitals(init);
      if IsUpper(name[|name| - 1]) && |name| > 1 {
        assert |separator| * (c + 1) == |separator| * c + |separator|;
      }
    }
  }

  /** Without capitals in the separator, the output has none. */
  lemma {:induction false} CamelLowerCase(name: string, separator: string)
    requires forall i | 0 <= i < |separator| :: !IsUpper(separator[i])
    ensures forall i | 0 <= i < |Camel(name, separator)| :: !IsUpper(Camel(name, separator)[i])
  {
    if name != [] {
      CamelLowerCase(name[..|name| - 1], separator);
    }
  }

  /** A name of lower-case letters and digits comes out unchanged. */
  lemma {:induction false} CamelKeepsLowerCase(name: string, separator: string)
    requires forall i | 0 <= i < |name| :: IsLower(name[i]) || '0' <= name[i] <= '9'
    ensures Camel(name, separator) == name
  {
    if name != [] {
      CamelKeepsLowerCase(name[..|name| - 1], separator);
      assert name == name[..|name| - 1] + [name[|name| - 1]];
    }
  }

  /** `UcFirst`: the first character upper-cased, the rest kept. */
  function UcFirst(s: string): (r: string)
    ensures |r| == |s| && (s != [] ==> r[0] == ToUpperChar(s[0]) && r[1..] == s[1..])
  {
    if |s| == 0 then "" else [ToUpperChar(s[0])] + s[1..]
  }

  /** `LcFirst`: the first character lower-cased, the rest kept. */
  function LcFirst(s: string): (r: string)
    ensures |r| == |s| && (s != [] ==> r[0] == ToLowerChar(s[0]) && r[1..] == s[1..])
  {
    if |s| == 0 then "" else [ToLowerChar(s[0])] + s[1..]
  }

  /** Each of `UcFirst` and `LcFirst` undoes the other on the first letter, and both are idempotent. */
  lemma FirstCaseRoundTrip(s: string)
    ensures UcFirst(UcFirst(s)) == UcFirst(s) && LcFirst(LcFirst(s)) == LcFirst(s)
    ensures UcFirst(LcFirst(s)) == UcFirst(s) && LcFirst(UcFirst(s)) == LcFirst(s)
  {
  }

  /** `strings.Split(s, [sep])`: never empty, one more part than there are separators. */
  function Split(s: string, sep: char): (parts: seq<string>)
    ensures |parts| >= 1
    ensures forall i | 0 <= i < |parts| :: sep !in parts[i]
  {
    if s == [] then [""]
    else if s[0] == sep then [""] + Split(s[1..], sep)
    else
      var rest := Split(s[1..], sep);
      [[s[0]] + rest[0]] + rest[1..]
  }

  /** `strings.Join(parts, [sep])` */
  function Join(parts: seq<string>, sep: char): string
  {
    if parts == [] then "" else if |parts| == 1 then parts[0] else parts[0] + [sep] + Join(parts[1..], sep)
  }

  /** Splitting and joining again gives back the string. */
  lemma {:induction false} JoinSplit(s: string, sep: char)
    ensures Join(Split(s, sep), sep) == s
  {
    if s != [] {
      JoinSplit(s[1..], sep);
      if s[0] != sep {
        var rest := Split(s[1..], sep);
        if |rest| > 1 {
          assert ([[s[0]] + rest[0]] + rest[1..])[1..] == rest[1..];
        }
      }
    }
  }

  /** A string splits into more than one part exactly when it holds the separator. */
  lemma {:induction false} SplitHasSeparator(s: string, sep: char)
    ensures |Split(s, sep)| > 1 <==> sep in s
  {
    if s != [] {
      SplitHasSeparator(s[1..], sep);
    }
  }

  /** The first part is the text before the first separator. */
  lemma {:induction false} SplitFirst(head: string, sep: char, tail: string)
    requires sep !in head
    ensures Split(head + [sep] + tail, sep)[0] == head
    ensures Split(head, sep) == [head]
  {
    if head != [] {
      SplitFirst(head[1..], sep, tail);
      assert (head + [sep] + tail)[1..] == head[1..] + [sep] + tail;
    } else {
      assert head + [sep] + tail == [sep] + tail;
    }
  }

  /** A separator between two texts splits them apart: their parts side by side. */
  lemma {:induction false} SplitAt(a: string, sep: char, b: string)
    ensures Split(a + [sep] + b, sep) == Split(a, sep) + Split(b, sep)
  {
    if a == [] {
      SplitCons(sep, b, sep);
      assert a + [sep] + b == [sep] + b;
    } else {
      var t := a[1..] + [sep] + b;
      SplitAt(a[1..], sep, b);
      assert a + [sep] + b == [a[0]] + t;
      assert a == [a[0]] + a[1..];
      SplitCons(a[0], t, sep);
      SplitCons(a[0], a[1..], sep);
      ConsParts(a[0], sep, Split(a[1..], sep), Split(b, sep));
    }
  }

  /** The step of `SplitAt` on the parts alone. */
  lemma ConsParts(c: char, sep: char, front: seq<string>, back: seq<string>)
    requires |front| >= 1
    ensures (if c == sep then [""] + (front + back) else [[c] + (front + back)[0]] + (front + back)[1..])
         == (if c == sep then [""] + front else [[c] + front[0]] + front[1..]) + back
  {
    if c != sep {
      assert (front + back)[1..] == front[1..] + back;
    }
  }

  /** `Split` one character at a time. */
  lemma SplitCons(c: char, t: string, sep: char)
    ensures Split([c] + t, sep)
         == if c == sep then [""] + Split(t, sep) else [[c] + Split(t, sep)[0]] + Split(t, sep)[1..]
  {
    assert ([c] + t)[0] == c && ([c] + t)[1..] == t;
  }

  /** The first part is the prefix of `s` that ends at the first separator or at the end. */
  lemma {:induction false} SplitPrefix(s: string, sep: char) returns (i: nat)
    ensures i <= |s| && s[..i] == Split(s, sep)[0] && (i == |s| || s[i] == sep)
  {
    if s == [] {
      i := 0;
    } else if s[0] == sep {
      i := 0;
    } else {
      var j := SplitPrefix(s[1..], sep);
      i := j + 1;
      assert s[..i] == [s[0]] + s[1..][..j];
    }
  }

  /** The last part joined back onto the others. */
  lemma {:induction false} JoinLast(parts: seq<string>, sep: char)
    requires |parts| >= 2
    ensures Join(parts[..|parts| - 1], sep) + [sep] + parts[|parts| - 1] == Join(parts, sep)
  {
    if |parts| > 2 {
      JoinLast(parts[1..], sep);
      assert parts[1..][..|parts| - 2] == parts[..|parts| - 1][1..];
    }
  }

  /**
   * `ConvertRestfulURLToUri(url)`: when the last "/"-part is a `:param`, the
   * path before it and the parameter name; otherwise the URL and "".
   */
  function ConvertRestfulURLToUri(url: string): (r: (string, string))
    ensures var parts := Split(url, '/');
      if |parts[|parts| - 1]| > 0 && parts[|parts| - 1][0] == ':'
      then r.1 == parts[|parts| - 1][1..] && '/' !in r.1
      else r == (url, "")
    ensures '/' !in url && EndsWithParam(url) ==> r == ("", url[1..])
  {
    assert '/' !in url ==> Split(url, '/') == [url] by {
      if '/' !in url {
        SplitFirst(url, '/', "");
      }
    }
    var parts := Split(url, '/');
    var last := parts[|parts| - 1];
    if |last| > 0 && last[0] == ':' then
      (Join(parts[..|parts| - 1], '/'), last[1..])
    else
      (url, "")
  }

  /** The last "/"-part of `url` is a `:param`. */
  predicate EndsWithParam(url: string)
  {
    var parts := Split(url, '/');
    |parts[|parts| - 1]| > 0 && parts[|parts| - 1][0] == ':'
  }

  /** Round trip: a URL with a slash and ending in a `:param` part is the path, "/:", and the parameter. */
  lemma ConvertRestfulURLRoundTrip(url: string)
    requires '/' in url && EndsWithParam(url)
    ensures var r := ConvertRestfulURLToUri(url); r.0 + "/:" + r.1 == url
  {
    var parts := Split(url, '/');
    SplitHasSeparator(url, '/');
    JoinSplit(url, '/');
    JoinLast(parts, '/');
    var last := parts[|parts| - 1];
    assert last == [':'] + last[1..];
  }

  /** `InArray(val, slice)`: a linear scan. */
  method InArray<T(==)>(val: T, slice: seq<T>) returns (found: bool)
    ensures found <==> val in slice
  {
    for i := 0 to |slice|
      invariant val !in slice[..i]
    {
      if slice[i] == val {
        return true;
      }
    }
    return false;
  }

  /** The ASCII white space `strings.TrimSpace` removes. */
  predicate IsSpace(c: char)
  {
    c == ' ' || c == '\t' || c == '\n' || c == '\r' || c == '\U{B}' || c == '\U{C}'
  }

  /** `strings.TrimSpace(s)` */
  function TrimSpace(s: string): (r: string)
    ensures |r| <= |s|
    ensures r == [] <==> forall k | 0 <= k < |s| :: IsSpace(s[k])
    ensures r != [] ==> !IsSpace(r[0]) && !IsSpace(r[|r| - 1])
  {
    if s == [] then s
    else if IsSpace(s[0]) then TrimSpace(s[1..])
    else if IsSpace(s[|s| - 1]) then TrimSpace(s[..|s| - 1])
    else s
  }

  /** What `TrimSpace` keeps is a stretch of `s` with only white space before and after it. */
  ghost predicate TrimmedAt(s: string, a: int, b: int)
  {
    && 0 <= a <= b <= |s|
    && (forall k | 0 <= k < a :: IsSpace(s[k]))
    && (forall k | b <= k < |s| :: IsSpace(s[k]))
  }

  /** `TrimSpace(s)` is `s` with leading and trailing white space cut off: an infix of `s`. */
  lemma {:induction false} TrimSpaceInfix(s: string)
    ensures exists a, b | TrimmedAt(s, a, b) :: TrimSpace(s) == s[a..b]
  {
    if s == [] {
      assert TrimmedAt(s, 0, 0) && TrimSpace(s) == s[0..0];
    } else if IsSpace(s[0]) {
      TrimSpaceInfix(s[1..]);
      var a, b :| TrimmedAt(s[1..], a, b) && TrimSpace(s[1..]) == s[1..][a..b];
      TrimmedAtFront(s, a, b);
    } else if IsSpace(s[|s| - 1]) {
      TrimSpaceInfix(s[..|s| - 1]);
      var a, b :| TrimmedAt(s[..|s| - 1], a, b) && TrimSpace(s[..|s| - 1]) == s[..|s| - 1][a..b];
      TrimmedAtBack(s, a, b);
    } else {
      assert TrimmedAt(s, 0, |s|) && TrimSpace(s) == s[0..|s|];
    }
  }

  /** A leading white-space character moves the trimmed stretch one place right. */
  lemma TrimmedAtFront(s: string, a: int, b: int)
    requires s != [] && IsSpace(s[0]) && TrimmedAt(s[1..], a, b)
    ensures TrimmedAt(s, a + 1, b + 1) && s[1..][a..b] == s[a + 1..b + 1]
  {
    assert forall k | 0 < k < a + 1 :: s[k] == s[1..][k - 1];
  }

  /** A trailing white-space character leaves the trimmed stretch where it is. */
  lemma TrimmedAtBack(s: string, a: int, b: int)
    requires s != [] && IsSpace(s[|s| - 1]) && TrimmedAt(s[..|s| - 1], a, b)
    ensures TrimmedAt(s, a, b) && s[..|s| - 1][a..b] == s[a..b]
  {
    assert forall k | b <= k < |s| - 1 :: s[k] == s[..|s| - 1][k];
  }

  /** Trimming a string that neither starts nor ends in white space changes nothing. */
  lemma TrimSpaceTrimmed(s: string)
    requires s != [] ==> !IsSpace(s[0]) && !IsSpace(s[|s| - 1])
    ensures TrimSpace(s) == s
  {
  }

  /** `strings.HasPrefix(s, prefix)` */
  predicate HasPrefix(s: string, prefix: string)
  {
    |prefix| <= |s| && s[..|prefix|] == prefix
  }

  /** `strings.Contains(s, sub)` */
  predicate Contains(s: string, sub: string)
  {
    HasPrefix(s, sub) || (s != [] && Contains(s[1..], sub))
  }

  /** A string contains every piece it is built around. */
  lemma {:induction false} ContainsInfix(a: string, b: string, c: string)
    ensures Contains(a + b + c, b)
  {
    if a == [] {
      assert a + b + c == b + c && (b + c)[..|b|] == b;
    } else {
      ContainsInfix(a[1..], b, c);
      assert (a + b + c)[1..] == a[1..] + b + c;
    }
  }

  /** Text appended to a string does not hide what it contained. */
  lemma {:induction false} ContainsExtend(s: string, sub: string, t: string)
    requires Contains(s, sub)
    ensures Contains(s + t, sub)
  {
    if HasPrefix(s, sub) {
      assert (s + t)[..|sub|] == s[..|sub|];
    } else {
      ContainsExtend(s[1..], sub, t);
      assert (s + t)[1..] == s[1..] + t;
    }
  }

  /** `sub` occurs in `s` at position `i`. */
  ghost predicate OccursAt(s: string, sub: string, i: int)
  {
    0 <= i && i + |sub| <= |s| && s[i..i + |sub|] == sub
  }

  /** `Contains(s, sub)` holds exactly when `sub` occurs at some position of `s`. */
  lemma {:induction false} ContainsAt(s: string, sub: string)
    ensures Contains(s, sub) <==> exists i :: OccursAt(s, sub, i)
  {
    if s != [] {
      ContainsAt(s[1..], sub);
      if HasPrefix(s, sub) {
        assert OccursAt(s, sub, 0);
      }
      if Contains(s[1..], sub) {
        var i :| OccursAt(s[1..], sub, i);
        assert s[i + 1..i + 1 + |sub|] == s[1..][i..i + |sub|];
        assert OccursAt(s, sub, i + 1);
      }
      if exists i :: OccursAt(s, sub, i) {
        var i :| OccursAt(s, sub, i);
        if i > 0 {
          assert s[1..][i - 1..i - 1 + |sub|] == s[i..i + |sub|];
          assert OccursAt(s[1..], sub, i - 1);
        }
      }
    } else if sub == [] {
      assert OccursAt(s, sub, 0);
    }
  }

  /** `Ternary(condition, trueVal, falseVal)` */
  function Ternary<T>(condition: bool, trueVal: T, falseVal: T): (r: T)
    ensures condition ==> r == trueVal
    ensures !condition ==> r == falseVal
  {
    if condition then trueVal else falseVal
  }

  /** `GetPlatform(userAgent)`: mobile systems first, then desktop ones. */
  function GetPlatform(userAgent: string): (r: string)
    ensures r in {"Android", "iOS", "Windows", "MacOS", "Linux", "Unknown"}
    ensures r == "Android" <==> Contains(ToLower(userAgent), "android")
  {
    var ua := ToLower(userAgent);
    if Contains(ua, "android") then "Android"
    else if Contains(ua, "iphone") || Contains(ua, "ipad") || Contains(ua, "ipod") then "iOS"
    else if Contains(ua, "windows") then "Windows"
    else if Contains(ua, "macintosh") || Contains(ua, "mac os") then "MacOS"
    else if Contains(ua, "linux") then "Linux"
    else "Unknown"
  }

  /** `GetBrowser(userAgent)` */
  function GetBrowser(userAgent: string): (r: string)
    ensures r in {"Google Chrome", "Microsoft Edge", "Mozilla Firefox", "Apple Safari", "Opera", "Internet Explorer", "Unknown"}
    ensures r == "Microsoft Edge" <==> Contains(ToLower(userAgent), "edg")
    ensures r == "Google Chrome" <==> Contains(ToLower(userAgent), "chrome") && !Contains(ToLower(userAgent), "edg")
  {
    var ua := ToLower(userAgent);
    if Contains(ua, "chrome") && !Contains(ua, "edg") then "Google Chrome"
    else if Contains(ua, "edg") then "Microsoft Edge"
    else if Contains(ua, "firefox") then "Mozilla Firefox"
    else if Contains(ua, "safari") && !Contains(ua, "chrome") then "Apple Safari"
    else if Contains(ua, "opr") || Contains(ua, "opera") then "Opera"
    else if Contains(ua, "msie") || Contains(ua, "trident") then "Internet Explorer"
    else "Unknown"
  }

  /**
   * The classification ignores case, and an Android agent is Android even
   * when it also names Linux (Android agents do).
   */
  lemma PlatformIgnoresCase(userAgent: string)
    ensures GetPlatform(ToLower(userAgent)) == GetPlatform(userAgent)
    ensures GetBrowser(ToLower(userAgent)) == GetBrowser(userAgent)
    ensures Contains(ToLower(userAgent), "android") ==> GetPlatform(userAgent) == "Android"
  {
    ToLowerIdempotent(userAgent);
  }

  /** Edge agents also name Chrome; the "edg" test keeps them from being reported as Chrome. */
  lemma EdgeIsNotChrome(userAgent: string)
    requires Contains(ToLower(userAgent), "edg")
    ensures GetBrowser(userAgent) == "Microsoft Edge"
  {
  }

  /** One more line at the end of a block. */
  lemma BlockStep(prev: string, line: string, lines: seq<string>)
    requires '\n' !in line
    requires Split(prev, '\n') == [""] + lines + [""]
    ensures Split(prev + (line + "\n"), '\n') == [""] + (lines + [line]) + [""]
  {
    FramedEndsWithSep(prev, lines);
    var q := prev[..|prev| - 1];
    assert prev == q + ['\n'] + "";
    SplitAt(q, '\n', "");
    SplitFirst("", '\n', "");
    var sq := Split(q, '\n');
    assert sq + [""] == [""] + lines + [""];
    Sequences.CancelLast(sq, [""] + lines, "");
    var r := q + ['\n'] + line;
    SplitAt(q, '\n', line);
    SplitFirst(line, '\n', "");
    assert Split(r, '\n') == [""] + lines + [line];
    assert prev + (line + "\n") == r + ['\n'] + "";
    SplitAt(r, '\n', "");
    Sequences.AppendAssoc([""], lines, [line]);
  }

  /** A text whose split ends in an empty part ends with the separator. */
  lemma FramedEndsWithSep(prev: string, lines: seq<string>)
    requires Split(prev, '\n') == [""] + lines + [""]
    ensures |prev| > 0 && prev[|prev| - 1] == '\n'
  {
    JoinSplit(prev, '\n');
    JoinLast([""] + lines + [""], '\n');
    assert ([""] + lines + [""])[..|lines| + 1] == [""] + lines;
  }
}
