/**
 * The line editors of cmdgen/genapi/genrouter.go, with the file read and
 * write removed: each takes the file's lines (`strings.Split(content,
 * "\n")`) and yields the lines it would write back.
 *
 *  - `removeExtraBlankLines` keeps the first of every run of blank lines;
 *  - `removeRouterFuncFromFile` drops a router function by brace depth;
 *  - `cleanRouterBlock` drops the calls of a removed function from the
 *    `Group(...).Use(...) { ... }` blocks of the router entry file;
 *  - `updateEnterGo` registers a router function in its group block.
 */
module GenRouter {
  import opened StringHelpers
  import opened Sequences

  /** A line `strings.TrimSpace` empties. */
  predicate IsBlank(line: string)
  {
    TrimSpace(line) == []
  }

  // ---------------------------------------------------------------------
  // removeExtraBlankLines
  // ---------------------------------------------------------------------

  /** Line `k` survives: it is not blank, or it is the first of a run of blank lines. */
  predicate KeptAt(lines: seq<string>, k: nat)
    requires k < |lines|
  {
    !IsBlank(lines[k]) || k == 0 || !IsBlank(lines[k - 1])
  }

  /** The surviving lines, in order. */
  function Collapse(lines: seq<string>): seq<string>
  {
    if lines == [] then []
    else Collapse(lines[..|lines| - 1]) + (if KeptAt(lines, |lines| - 1) then [lines[|lines| - 1]] else [])
  }

  /** No two neighbouring lines are both blank. */
  ghost predicate NoDoubleBlank(lines: seq<string>)
  {
    forall k | 0 < k < |lines| :: !IsBlank(lines[k - 1]) || !IsBlank(lines[k])
  }

  /** The non-blank lines, in order. */
  function NonBlank(lines: seq<string>): seq<string>
  {
    if lines == [] then []
    else NonBlank(lines[..|lines| - 1]) + (if IsBlank(lines[|lines| - 1]) then [] else [lines[|lines| - 1]])
  }

  /** `removeExtraBlankLines`: `blankCount` counts the blank lines just read. */
  method RemoveExtraBlankLines(lines: seq<string>) returns (result: seq<string>)
    ensures result == Collapse(lines)
  {
    result := [];
    var blankCount: nat := 0;
    for i := 0 to |lines|
      invariant result == Collapse(lines[..i])
      invariant blankCount == 0 <==> i == 0 || !IsBlank(lines[i - 1])
    {
      assert lines[..i + 1][..i] == lines[..i];
      assert KeptAt(lines[..i + 1], i) == KeptAt(lines, i);
      if IsBlank(lines[i]) {
        blankCount := blankCount + 1;
        if blankCount > 1 {
          assert result + [] == result;
          continue;
        }
      } else {
        blankCount := 0;
      }
      result := result + [lines[i]];
    }
    assert lines[..|lines|] == lines;
  }

  /** The last line, when it survives, is the last line of the result. */
  lemma CollapseLast(lines: seq<string>)
    requires lines != [] && KeptAt(lines, |lines| - 1)
    ensures Collapse(lines) != [] && Collapse(lines)[|Collapse(lines)| - 1] == lines[|lines| - 1]
  {
  }

  /** The result never holds two blank lines in a row. */
  lemma {:induction false} CollapseNoDoubleBlank(lines: seq<string>)
    ensures NoDoubleBlank(Collapse(lines))
  {
    if lines != [] {
      var n := |lines| - 1;
      var init := lines[..n];
      CollapseNoDoubleBlank(init);
      if KeptAt(lines, n) && IsBlank(lines[n]) && n > 0 {
        assert init[n - 1] == lines[n - 1];
        CollapseLast(init);
      }
    }
  }

  /** Every non-blank line is kept, in order. */
  lemma {:induction false} CollapseKeepsNonBlank(lines: seq<string>)
    ensures NonBlank(Collapse(lines)) == NonBlank(lines)
  {
    if lines != [] {
      var n := |lines| - 1;
      CollapseKeepsNonBlank(lines[..n]);
      var c := Collapse(lines[..n]);
      if KeptAt(lines, n) {
        assert (c + [lines[n]])[..|c|] == c;
      } else {
        assert c + [] == c;
      }
    }
  }

  /** The result is the input with some lines left out. */
  lemma {:induction false} CollapseSubseq(lines: seq<string>)
    ensures Subseq(Collapse(lines), lines)
  {
    if lines == [] {
      SubseqEmpty(lines);
    } else {
      var n := |lines| - 1;
      CollapseSubseq(lines[..n]);
      SubseqSnoc(Collapse(lines[..n]), lines[..n], lines[n], KeptAt(lines, n));
      InitLast(lines);
    }
  }

  /** Lines without two blanks in a row are left as they are. */
  lemma {:induction false} CollapseKeepsSingleBlanks(lines: seq<string>)
    requires NoDoubleBlank(lines)
    ensures Collapse(lines) == lines
  {
    if lines != [] {
      var n := |lines| - 1;
      CollapseKeepsSingleBlanks(lines[..n]);
      assert KeptAt(lines, n);
      InitLast(lines);
    }
  }

  /** Collapsing twice is collapsing once. */
  lemma CollapseIdempotent(lines: seq<string>)
    ensures Collapse(Collapse(lines)) == Collapse(lines)
  {
    CollapseNoDoubleBlank(lines);
    CollapseKeepsSingleBlanks(Collapse(lines));
  }

  // ---------------------------------------------------------------------
  // removeRouterFuncFromFile
  // ---------------------------------------------------------------------

  /** `strings.Count(s, [c])` */
  function CountChar(s: string, c: char): (n: nat)
    ensures n <= |s| && (n == 0 <==> c !in s)
  {
    if s == [] then 0 else (if s[0] == c then 1 else 0) + CountChar(s[1..], c)
  }

  /** Opening minus closing braces on a line. */
  function Braces(line: string): int
  {
    CountChar(line, '{') - CountChar(line, '}')
  }

  /** The first line of `func <funcName>(`, after trimming. */
  predicate OpensFunc(line: string, funcName: string)
  {
    HasPrefix(TrimSpace(line), "func " + funcName + "(")
  }

  /** The scanner state: inside the function to remove, and the running brace depth. */
  datatype FuncScan = FuncScan(inFunc: bool, depth: int)

  /** The state after one more line. */
  function FuncStep(st: FuncScan, line: string, funcName: string): FuncScan
  {
    if !st.inFunc && OpensFunc(line, funcName) then
      FuncScan(true, if '{' in line then st.depth + Braces(line) else st.depth)
    else if st.inFunc then
      var d := st.depth + Braces(line);
      FuncScan(d > 0, d)
    else st
  }

  /** The state after `lines`, from `st`. */
  function ScanFrom(st: FuncScan, lines: seq<string>, funcName: string): FuncScan
  {
    if lines == [] then st
    else FuncStep(ScanFrom(st, lines[..|lines| - 1], funcName), lines[|lines| - 1], funcName)
  }

  /** A line read in state `st` is kept: not inside the function, and not its first line. */
  predicate KeepsLine(st: FuncScan, line: string, funcName: string)
  {
    !st.inFunc && !OpensFunc(line, funcName)
  }

  /** The lines kept from `lines`, read from state `st`. */
  function StripFrom(st: FuncScan, lines: seq<string>, funcName: string): seq<string>
  {
    if lines == [] then []
    else
      var init := lines[..|lines| - 1];
      StripFrom(st, init, funcName)
        + (if KeepsLine(ScanFrom(st, init, funcName), lines[|lines| - 1], funcName) then [lines[|lines| - 1]] else [])
  }

  /** The state before the first line. */
  const Start := FuncScan(false, 0)

  /**
   * `removeRouterFuncFromFile`: the lines outside the function, with runs
   * of blank lines collapsed.
   */
  method RemoveRouterFuncFromFile(lines: seq<string>, funcName: string) returns (final: seq<string>)
    ensures final == Collapse(StripFrom(Start, lines, funcName))
  {
    var result := [];
    var inFunc := false;
    var bracketDepth := 0;
    for i := 0 to |lines|
      invariant result == StripFrom(Start, lines[..i], funcName)
      invariant FuncScan(inFunc, bracketDepth) == ScanFrom(Start, lines[..i], funcName)
    {
      assert lines[..i + 1][..i] == lines[..i];
      var line := lines[i];
      var trim := TrimSpace(line);
      if !inFunc && HasPrefix(trim, "func " + funcName + "(") {
        inFunc := true;
        if '{' in line {
          bracketDepth := bracketDepth + CountChar(line, '{');
          bracketDepth := bracketDepth - CountChar(line, '}');
        }
        assert result + [] == result;
        continue;
      }
      if inFunc {
        bracketDepth := bracketDepth + CountChar(line, '{');
        bracketDepth := bracketDepth - CountChar(line, '}');
        if bracketDepth <= 0 {
          inFunc := false;
        }
        assert result + [] == result;
        continue;
      }
      result := result + [line];
    }
    assert lines[..|lines|] == lines;
    final := RemoveExtraBlankLines(result);
  }

  /** Reading `a` then `b` keeps what `a` keeps, then what `b` keeps from where `a` left off. */
  lemma {:induction false} StripAppend(st: FuncScan, a: seq<string>, b: seq<string>, funcName: string)
    ensures ScanFrom(st, a + b, funcName) == ScanFrom(ScanFrom(st, a, funcName), b, funcName)
    ensures StripFrom(st, a + b, funcName) == StripFrom(st, a, funcName) + StripFrom(ScanFrom(st, a, funcName), b, funcName)
  {
    if b == [] {
      assert a + b == a;
    } else {
      var n := |b| - 1;
      StripAppend(st, a, b[..n], funcName);
      var x := a + b[..n];
      InitLast(b);
      AppendAssoc(a, b[..n], [b[n]]);
      AppendSlices(x, [b[n]]);
      assert (a + b)[..|a + b| - 1] == x && (a + b)[|a + b| - 1] == b[n];
      var mid := ScanFrom(st, a, funcName);
      var last := if KeepsLine(ScanFrom(st, x, funcName), b[n], funcName) then [b[n]] else [];
      AppendAssoc(StripFrom(st, a, funcName), StripFrom(mid, b[..n], funcName), last);
    }
  }

  /** No kept line starts the function. */
  lemma {:induction false} StripDropsEveryOpening(st: FuncScan, lines: seq<string>, funcName: string)
    ensures forall k | 0 <= k < |StripFrom(st, lines, funcName)| :: !OpensFunc(StripFrom(st, lines, funcName)[k], funcName)
  {
    if lines != [] {
      StripDropsEveryOpening(st, lines[..|lines| - 1], funcName);
    }
  }

  /** The kept lines are the input with some lines left out. */
  lemma {:induction false} StripSubseq(st: FuncScan, lines: seq<string>, funcName: string)
    ensures Subseq(StripFrom(st, lines, funcName), lines)
  {
    if lines == [] {
      SubseqEmpty(lines);
    } else {
      var n := |lines| - 1;
      StripSubseq(st, lines[..n], funcName);
      SubseqSnoc(StripFrom(st, lines[..n], funcName), lines[..n], lines[n],
        KeepsLine(ScanFrom(st, lines[..n], funcName), lines[n], funcName));
      InitLast(lines);
    }
  }

  /** A file without the function keeps every line, and the scanner never leaves its start state. */
  lemma {:induction false} StripWithoutFunction(lines: seq<string>, funcName: string)
    requires forall k | 0 <= k < |lines| :: !OpensFunc(lines[k], funcName)
    ensures ScanFrom(Start, lines, funcName) == Start
    ensures StripFrom(Start, lines, funcName) == lines
  {
    if lines != [] {
      var n := |lines| - 1;
      StripWithoutFunction(lines[..n], funcName);
      InitLast(lines);
    }
  }

  /** The braces `lines` open, net of those they close. */
  function BraceSum(lines: seq<string>): int
  {
    if lines == [] then 0 else BraceSum(lines[..|lines| - 1]) + Braces(lines[|lines| - 1])
  }

  /**
   * Inside the function, lines after each of which the running depth is
   * still positive are all dropped, and the depth grows by their braces.
   */
  lemma {:induction false} InsideBody(depth: int, body: seq<string>, funcName: string)
    requires forall k | 0 < k <= |body| :: depth + BraceSum(body[..k]) > 0
    ensures ScanFrom(FuncScan(true, depth), body, funcName) == FuncScan(true, depth + BraceSum(body))
    ensures StripFrom(FuncScan(true, depth), body, funcName) == []
  {
    if body != [] {
      var n := |body| - 1;
      forall k | 0 < k <= n
        ensures depth + BraceSum(body[..n][..k]) > 0
      {
        assert body[..n][..k] == body[..k];
      }
      InsideBody(depth, body[..n], funcName);
      assert body[..|body|] == body;
    }
  }

  /** Reading one line is one step. */
  lemma StripOne(st: FuncScan, line: string, funcName: string)
    ensures ScanFrom(st, [line], funcName) == FuncStep(st, line, funcName)
    ensures StripFrom(st, [line], funcName) == if KeepsLine(st, line, funcName) then [line] else []
  {
    assert [line][..0] == [];
  }

  /**
   * A function is removed whole: its first line, the body lines after each
   * of which the running depth is still positive, and the line that takes
   * the depth to zero or below. The lines after it are read from the depth
   * it leaves; when its braces balance, as if it had never been there.
   */
  lemma FunctionRemoved(pre: seq<string>, open: string, body: seq<string>, close: string, post: seq<string>, funcName: string)
    requires ScanFrom(Start, pre, funcName) == Start
    requires OpensFunc(open, funcName)
    requires forall k | 0 < k <= |body| :: FuncStep(Start, open, funcName).depth + BraceSum(body[..k]) > 0
    requires FuncStep(Start, open, funcName).depth + BraceSum(body) + Braces(close) <= 0
    ensures ScanFrom(Start, pre + [open] + body + [close], funcName)
      == FuncScan(false, FuncStep(Start, open, funcName).depth + BraceSum(body) + Braces(close))
    ensures StripFrom(Start, pre + [open] + body + [close] + post, funcName)
      == StripFrom(Start, pre, funcName)
        + StripFrom(FuncScan(false, FuncStep(Start, open, funcName).depth + BraceSum(body) + Braces(close)), post, funcName)
  {
    var inside := FuncStep(Start, open, funcName);
    var deeper := FuncScan(true, inside.depth + BraceSum(body));
    var a, b, c := pre + [open], pre + [open] + body, pre + [open] + body + [close];
    var kept := StripFrom(Start, pre, funcName);
    assert ScanFrom(Start, a, funcName) == inside && StripFrom(Start, a, funcName) == kept by {
      AppendEmpty(kept);
      StripOne(Start, open, funcName);
      StripAppend(Start, pre, [open], funcName);
    }
    assert ScanFrom(Start, b, funcName) == deeper && StripFrom(Start, b, funcName) == kept by {
      AppendEmpty(kept);
      InsideBody(inside.depth, body, funcName);
      StripAppend(Start, a, body, funcName);
    }
    assert ScanFrom(Start, c, funcName) == FuncStep(deeper, close, funcName) && StripFrom(Start, c, funcName) == kept by {
      AppendEmpty(kept);
      StripOne(deeper, close, funcName);
      StripAppend(Start, b, [close], funcName);
    }
    StripAppend(Start, c, post, funcName);
  }

  /** A router function holding one group block, `{ ... }` inside its body, is removed whole. */
  lemma FunctionWithBlockRemoved(pre: seq<string>, open: string, header: string, calls: seq<string>, blockEnd: string,
                                 close: string, post: seq<string>, funcName: string)
    requires ScanFrom(Start, pre, funcName) == Start
    requires OpensFunc(open, funcName) && CountChar(open, '{') == 1 && CountChar(open, '}') == 0
    requires CountChar(header, '{') == 1 && CountChar(header, '}') == 0
    requires forall k | 0 <= k < |calls| :: CountChar(calls[k], '{') == 0 && CountChar(calls[k], '}') == 0
    requires Braces(blockEnd) == -1 && Braces(close) == -1
    ensures StripFrom(Start, pre + [open] + ([header] + calls + [blockEnd]) + [close] + post, funcName)
      == StripFrom(Start, pre, funcName) + StripFrom(Start, post, funcName)
  {
    OpenDepthOne(open, funcName);
    BlockKeepsInside(header, calls, blockEnd);
    FunctionRemoved(pre, open, [header] + calls + [blockEnd], close, post, funcName);
  }

  /** A first line with one `{` and no `}` puts the scanner one level deep. */
  lemma OpenDepthOne(open: string, funcName: string)
    requires OpensFunc(open, funcName) && CountChar(open, '{') == 1 && CountChar(open, '}') == 0
    ensures FuncStep(Start, open, funcName).depth == 1
  {
    assert '{' in open;
  }

  /** One level deep, a group block keeps the depth positive until its `}` closes it. */
  lemma BlockKeepsInside(header: string, calls: seq<string>, blockEnd: string)
    requires CountChar(header, '{') == 1 && CountChar(header, '}') == 0
    requires forall j | 0 <= j < |calls| :: CountChar(calls[j], '{') == 0 && CountChar(calls[j], '}') == 0
    requires Braces(blockEnd) == -1
    ensures forall k | 0 < k <= |[header] + calls + [blockEnd]| :: 1 + BraceSum(([header] + calls + [blockEnd])[..k]) > 0
    ensures BraceSum([header] + calls + [blockEnd]) == 0
  {
    var body := [header] + calls + [blockEnd];
    forall k | 0 < k <= |body|
      ensures 1 + BraceSum(body[..k]) > 0
    {
      BlockPrefixSum(header, calls, blockEnd, k);
    }
    BlockPrefixSum(header, calls, blockEnd, |body|);
    assert body[..|body|] == body;
  }

  /** Inside a block opened by `header`, brace-free lines keep the sum at one; its end brings it to zero. */
  lemma {:induction false} BlockPrefixSum(header: string, calls: seq<string>, blockEnd: string, k: nat)
    requires CountChar(header, '{') == 1 && CountChar(header, '}') == 0
    requires forall j | 0 <= j < |calls| :: CountChar(calls[j], '{') == 0 && CountChar(calls[j], '}') == 0
    requires Braces(blockEnd) == -1
    requires 0 < k <= |calls| + 2
    ensures BraceSum(([header] + calls + [blockEnd])[..k]) == if k == |calls| + 2 then 0 else 1
  {
    var body := [header] + calls + [blockEnd];
    if k == 1 {
      assert body[..1][..0] == [];
    } else {
      BlockPrefixSum(header, calls, blockEnd, k - 1);
      assert body[..k][..k - 1] == body[..k - 1];
      if k <= |calls| + 1 {
        assert body[k - 1] == calls[k - 2];
      } else {
        assert body[k - 1] == blockEnd;
      }
    }
  }

  /**
   * A function written on one line (`func F() {}`) leaves the depth at 0
   * but the scanner inside the function, so the line after it is dropped
   * too.
   */
  lemma OneLineFunctionTakesNextLine(open: string, next: string, funcName: string)
    requires OpensFunc(open, funcName) && Braces(open) == 0
    requires !OpensFunc(next, funcName) && Braces(next) == 0
    ensures StripFrom(Start, [open, next], funcName) == []
    ensures ScanFrom(Start, [open, next], funcName) == Start
  {
    var inside := FuncScan(true, 0);
    StripOne(Start, open, funcName);
    StripOne(inside, next, funcName);
    StripAppend(Start, [open], [next], funcName);
    assert [open] + [next] == [open, next];
  }

  // ---------------------------------------------------------------------
  // cleanRouterBlock
  // ---------------------------------------------------------------------

  /** A line holding `:= r.Group(` once trimmed: a group header. */
  predicate IsHeader(line: string)
  {
    Contains(TrimSpace(line), ":= r.Group(")
  }

  /** A line holding `.Use(` once trimmed: middleware for the group. */
  predicate IsUse(line: string)
  {
    Contains(TrimSpace(line), ".Use(")
  }

  predicate IsOpen(line: string)
  {
    TrimSpace(line) == "{"
  }

  predicate IsClose(line: string)
  {
    TrimSpace(line) == "}"
  }

  /** A recognised block starts at `s`: header, `Use` line, then a line `{`. */
  predicate OpensBlock(lines: seq<string>, s: nat)
  {
    s + 2 < |lines| && IsHeader(lines[s]) && IsUse(lines[s + 1]) && IsOpen(lines[s + 2])
  }

  /** A line calling the removed function. */
  predicate CallsInvalid(line: string, invalidFunc: string)
  {
    Contains(line, invalidFunc + "(")
  }

  /** The body lines that do not call the removed function, in order. */
  function FilterCalls(body: seq<string>, invalidFunc: string): seq<string>
  {
    if body == [] then []
    else
      FilterCalls(body[..|body| - 1], invalidFunc)
        + (if CallsInvalid(body[|body| - 1], invalidFunc) then [] else [body[|body| - 1]])
  }

  /** The first line `}` at or after `j`, or `|lines|` when there is none. */
  function CloseFrom(lines: seq<string>, j: nat): (e: nat)
    requires j <= |lines|
    ensures j <= e <= |lines|
    ensures e < |lines| ==> IsClose(lines[e])
    ensures forall k | j <= k < e :: !IsClose(lines[k])
    decreases |lines| - j
  {
    if j == |lines| then j else if IsClose(lines[j]) then j else CloseFrom(lines, j + 1)
  }

  /** What the block opened at `s` and closed at `e` writes: nothing when no body line is left. */
  function BlockKept(lines: seq<string>, invalidFunc: string, s: nat, e: nat): seq<string>
    requires s + 3 <= e < |lines|
  {
    var body := FilterCalls(lines[s + 3..e], invalidFunc);
    if body == [] then [] else lines[s..s + 3] + body + [lines[e]]
  }

  /**
   * The lines written for `lines[i..]`.  A recognised block keeps its
   * header, `Use` line, `{` and `}` around the body lines that do not call
   * the removed function, and disappears when none are left; a block that
   * is never closed takes the rest of the file with it.  A header followed
   * by a `Use` line but no `{` is written as its header alone when
   * `keepUse` is false, as the code does, and as both lines when it is
   * true.
   */
  function CleanFrom(lines: seq<string>, invalidFunc: string, i: nat, keepUse: bool): seq<string>
    requires i <= |lines|
    decreases |lines| - i
  {
    if i == |lines| then []
    else if OpensBlock(lines, i) then
      var e := CloseFrom(lines, i + 3);
      if e == |lines| then [] else BlockKept(lines, invalidFunc, i, e) + CleanFrom(lines, invalidFunc, e + 1, keepUse)
    else if IsHeader(lines[i]) && i + 1 < |lines| && IsUse(lines[i + 1]) then
      (if keepUse then lines[i..i + 2] else [lines[i]]) + CleanFrom(lines, invalidFunc, i + 2, keepUse)
    else
      [lines[i]] + CleanFrom(lines, invalidFunc, i + 1, keepUse)
  }

  /** The body filter of `cleanRouterBlock`. */
  method FilterBody(bodyLines: seq<string>, invalidFunc: string) returns (filteredBody: seq<string>)
    ensures filteredBody == FilterCalls(bodyLines, invalidFunc)
  {
    filteredBody := [];
    for k := 0 to |bodyLines|
      invariant filteredBody == FilterCalls(bodyLines[..k], invalidFunc)
    {
      assert bodyLines[..k + 1][..k] == bodyLines[..k];
      if !Contains(bodyLines[k], invalidFunc + "(") {
        filteredBody := filteredBody + [bodyLines[k]];
      } else {
        AppendEmpty(filteredBody);
      }
    }
    assert bodyLines[..|bodyLines|] == bodyLines;
  }

  /** A line that neither starts a header-and-`Use` pair is written as it is. */
  lemma CleanPlain(lines: seq<string>, invalidFunc: string, i: nat, keepUse: bool)
    requires i < |lines| && !(IsHeader(lines[i]) && i + 1 < |lines| && IsUse(lines[i + 1]))
    ensures CleanFrom(lines, invalidFunc, i, keepUse) == [lines[i]] + CleanFrom(lines, invalidFunc, i + 1, keepUse)
  {
  }

  /** A header and `Use` line not followed by `{`. */
  lemma CleanUnopened(lines: seq<string>, invalidFunc: string, i: nat, keepUse: bool)
    requires i + 1 < |lines| && IsHeader(lines[i]) && IsUse(lines[i + 1])
    requires !(i + 2 < |lines| && IsOpen(lines[i + 2]))
    ensures CleanFrom(lines, invalidFunc, i, keepUse)
      == (if keepUse then lines[i..i + 2] else [lines[i]]) + CleanFrom(lines, invalidFunc, i + 2, keepUse)
  {
  }

  /** A recognised block, closed at `e`. */
  lemma CleanClosed(lines: seq<string>, invalidFunc: string, s: nat, e: nat, body: seq<string>, keepUse: bool)
    requires OpensBlock(lines, s) && e == CloseFrom(lines, s + 3) < |lines|
    requires body == FilterCalls(lines[s + 3..e], invalidFunc)
    ensures CleanFrom(lines, invalidFunc, s, keepUse)
      == (if body == [] then [] else lines[s..s + 3] + body + [lines[e]]) + CleanFrom(lines, invalidFunc, e + 1, keepUse)
  {
    CleanOpened(lines, invalidFunc, s, keepUse);
  }

  /** A recognised block: the lines kept from it, then the output from after its `}`. */
  lemma CleanOpened(lines: seq<string>, invalidFunc: string, s: nat, keepUse: bool)
    requires OpensBlock(lines, s) && CloseFrom(lines, s + 3) < |lines|
    ensures var e := CloseFrom(lines, s + 3);
      CleanFrom(lines, invalidFunc, s, keepUse) == BlockKept(lines, invalidFunc, s, e) + CleanFrom(lines, invalidFunc, e + 1, keepUse)
  {
  }

  /** A recognised block that is never closed. */
  lemma CleanUnclosed(lines: seq<string>, invalidFunc: string, s: nat, keepUse: bool)
    requires OpensBlock(lines, s) && CloseFrom(lines, s + 3) == |lines|
    ensures CleanFrom(lines, invalidFunc, s, keepUse) == []
  {
  }

  /** Outside a block before line `i`: what is written so far, then what `lines[i..]` gives, is the whole output. */
  ghost predicate Outside(lines: seq<string>, invalidFunc: string, i: nat, newLines: seq<string>, total: seq<string>)
  {
    i <= |lines| && newLines + CleanFrom(lines, invalidFunc, i, false) == total
  }

  /** Inside the block entered at `start` before line `i`: no `}` has been read since its `{`. */
  ghost predicate Inside(lines: seq<string>, invalidFunc: string, i: nat, start: nat, buffer: seq<string>, newLines: seq<string>,
    total: seq<string>)
  {
    && i <= |lines| && OpensBlock(lines, start) && start + 3 <= i
    && buffer == lines[start..start + 3] && CloseFrom(lines, start + 3) >= i
    && newLines + CleanFrom(lines, invalidFunc, start, false) == total
  }

  lemma ProgressOpen(lines: seq<string>, invalidFunc: string, i: nat, newLines: seq<string>, total: seq<string>)
    requires Outside(lines, invalidFunc, i, newLines, total) && OpensBlock(lines, i)
    ensures Inside(lines, invalidFunc, i + 3, i, lines[i..i + 3], newLines, total)
  {
  }

  lemma ProgressUnopened(lines: seq<string>, invalidFunc: string, i: nat, newLines: seq<string>, total: seq<string>)
    requires Outside(lines, invalidFunc, i, newLines, total)
    requires i + 1 < |lines| && IsHeader(lines[i]) && IsUse(lines[i + 1]) && !(i + 2 < |lines| && IsOpen(lines[i + 2]))
    ensures Outside(lines, invalidFunc, i + 2, newLines + [lines[i]], total)
  {
    CleanUnopened(lines, invalidFunc, i, false);
    AppendAssocOne(newLines, lines[i], CleanFrom(lines, invalidFunc, i + 2, false));
  }

  lemma ProgressPlain(lines: seq<string>, invalidFunc: string, i: nat, newLines: seq<string>, total: seq<string>)
    requires Outside(lines, invalidFunc, i, newLines, total)
    requires i < |lines| && !(IsHeader(lines[i]) && i + 1 < |lines| && IsUse(lines[i + 1]))
    ensures Outside(lines, invalidFunc, i + 1, newLines + [lines[i]], total)
  {
    CleanPlain(lines, invalidFunc, i, false);
    AppendAssocOne(newLines, lines[i], CleanFrom(lines, invalidFunc, i + 1, false));
  }

  lemma ProgressBody(lines: seq<string>, invalidFunc: string, i: nat, start: nat, buffer: seq<string>, newLines: seq<string>, total: seq<string>)
    requires Inside(lines, invalidFunc, i, start, buffer, newLines, total)
    requires i < |lines| && !IsClose(lines[i])
    ensures Inside(lines, invalidFunc, i + 1, start, buffer, newLines, total)
  {
  }

  lemma ProgressClose(lines: seq<string>, invalidFunc: string, i: nat, start: nat, buffer: seq<string>, newLines: seq<string>, total: seq<string>,
    filtered: seq<string>)
    requires Inside(lines, invalidFunc, i, start, buffer, newLines, total)
    requires i < |lines| && IsClose(lines[i]) && filtered == FilterCalls(lines[start + 3..i], invalidFunc)
    ensures Outside(lines, invalidFunc, i + 1, newLines + (if filtered == [] then [] else buffer[..3] + filtered + [lines[i]]), total)
  {
    assert CloseFrom(lines, start + 3) == i;
    assert buffer[..3] == lines[start..start + 3];
    var emitted := if filtered == [] then [] else buffer[..3] + filtered + [lines[i]];
    CleanClosed(lines, invalidFunc, start, i, filtered, false);
    AppendAssoc(newLines, emitted, CleanFrom(lines, invalidFunc, i + 1, false));
  }

  /**
   * The look-ahead after a group header at `i`: the header, the `Use` line
   * and the `{` line read into `buffer`, and `i` moved to the last line
   * read.
   */
  method ReadGroupHeader(lines: seq<string>, i: nat) returns (buffer: seq<string>, last: nat, entered: bool)
    requires i < |lines| && IsHeader(lines[i])
    ensures entered <==> OpensBlock(lines, i)
    ensures entered ==> last == i + 2 && buffer == lines[i..i + 3]
    ensures !entered && i + 1 < |lines| && IsUse(lines[i + 1]) ==> last == i + 1
    ensures !entered && !(i + 1 < |lines| && IsUse(lines[i + 1])) ==> last == i
  {
    buffer, last, entered := [lines[i]], i, false;
    if i + 1 < |lines| && Contains(TrimSpace(lines[i + 1]), ".Use(") {
      buffer := buffer + [lines[i + 1]];
      last := last + 1;
      if last + 1 < |lines| && TrimSpace(lines[last + 1]) == "{" {
        buffer := buffer + [lines[last + 1]];
        last := last + 1;
        entered := true;
        assert buffer == lines[i..i + 3];
      }
    }
  }

  /** The end of a block at `i`: its kept body lines, between its opening lines and `}`, when there are any. */
  method EmitBlock(lines: seq<string>, invalidFunc: string, i: nat, blockStartIdx: nat, buffer: seq<string>,
    newLines: seq<string>, ghost total: seq<string>) returns (written: seq<string>)
    requires Inside(lines, invalidFunc, i, blockStartIdx, buffer, newLines, total)
    requires i < |lines| && IsClose(lines[i])
    ensures Outside(lines, invalidFunc, i + 1, written, total)
  {
    var blockEndIdx := i;
    var bodyLines := buffer[3..] + lines[blockStartIdx + |buffer|..blockEndIdx];
    assert buffer[3..] == [];
    AppendEmpty(lines[blockStartIdx + 3..i]);
    var filteredBody := FilterBody(bodyLines, invalidFunc);
    ProgressClose(lines, invalidFunc, i, blockStartIdx, buffer, newLines, total, filteredBody);
    if |filteredBody| != 0 {
      AppendAssoc4(newLines, buffer[..3], filteredBody, [lines[i]]);
      written := newLines + buffer[..3] + filteredBody + [lines[i]];
    } else {
      AppendEmpty(newLines);
      written := newLines;
    }
  }

  /** `cleanRouterBlock`, as written. */
  method CleanRouterBlock(lines: seq<string>, invalidFunc: string) returns (newLines: seq<string>)
    ensures newLines == CleanFrom(lines, invalidFunc, 0, false)
  {
    AppendEmpty(CleanFrom(lines, invalidFunc, 0, false));
    newLines := CleanLines(lines, invalidFunc, CleanFrom(lines, invalidFunc, 0, false));
  }

  /** A group header line met outside a block: the block is entered, or the lines read are written. */
  method GroupHeader(lines: seq<string>, invalidFunc: string, i: nat, newLines: seq<string>, ghost total: seq<string>)
    returns (buffer: seq<string>, last: nat, entered: bool, written: seq<string>)
    requires Outside(lines, invalidFunc, i, newLines, total)
    requires i < |lines| && IsHeader(lines[i])
    ensures i <= last < |lines|
    ensures entered ==> Inside(lines, invalidFunc, last + 1, i, buffer, written, total)
    ensures !entered ==> Outside(lines, invalidFunc, last + 1, written, total)
  {
    buffer, last, entered := ReadGroupHeader(lines, i);
    if entered {
      ProgressOpen(lines, invalidFunc, i, newLines, total);
      written := newLines;
    } else if last == i + 1 {
      ProgressUnopened(lines, invalidFunc, i, newLines, total);
      written := newLines + [lines[i]];
    } else {
      ProgressPlain(lines, invalidFunc, i, newLines, total);
      written := newLines + [lines[i]];
    }
  }

  /** Where the line loop of `cleanRouterBlock` stands: outside a block, or inside the one entered at `start`. */
  ghost predicate Progress(lines: seq<string>, invalidFunc: string, i: nat, inside: bool, start: nat, buffer: seq<string>,
    newLines: seq<string>, total: seq<string>)
  {
    if inside then Inside(lines, invalidFunc, i, start, buffer, newLines, total) else Outside(lines, invalidFunc, i, newLines, total)
  }

  /** One pass of the line loop of `cleanRouterBlock`, from line `i`. */
  method CleanStep(lines: seq<string>, invalidFunc: string, i: nat, insideBlock: bool, blockStartIdx: nat, buffer: seq<string>,
    newLines: seq<string>, ghost total: seq<string>)
    returns (next: nat, inside': bool, start': nat, buffer': seq<string>, written: seq<string>)
    requires i < |lines| && Progress(lines, invalidFunc, i, insideBlock, blockStartIdx, buffer, newLines, total)
    ensures i < next <= |lines| && Progress(lines, invalidFunc, next, inside', start', buffer', written, total)
  {
    if insideBlock && TrimSpace(lines[i]) == "}" {
      next, inside', start', buffer', written := CloseBlock(lines, invalidFunc, i, blockStartIdx, buffer, newLines, total);
    } else if insideBlock {
      next, inside', start', buffer', written := HoldLine(lines, invalidFunc, i, blockStartIdx, buffer, newLines, total);
    } else {
      next, inside', start', buffer', written := StepOutside(lines, invalidFunc, i, newLines, total);
    }
  }

  /** A `}` read inside a block: the block is written out and the loop is outside again. */
  method CloseBlock(lines: seq<string>, invalidFunc: string, i: nat, blockStartIdx: nat, buffer: seq<string>,
    newLines: seq<string>, ghost total: seq<string>)
    returns (next: nat, inside': bool, start': nat, buffer': seq<string>, written: seq<string>)
    requires i < |lines| && IsClose(lines[i]) && Progress(lines, invalidFunc, i, true, blockStartIdx, buffer, newLines, total)
    ensures next == i + 1 && !inside' && start' == blockStartIdx && buffer' == []
    ensures i < next <= |lines| && Progress(lines, invalidFunc, next, inside', start', buffer', written, total)
  {
    written := EmitBlock(lines, invalidFunc, i, blockStartIdx, buffer, newLines, total);
    next, inside', start', buffer' := i + 1, false, blockStartIdx, [];
  }

  /** A line read inside a block that is not `}`: it is held back until the block is closed. */
  method HoldLine(lines: seq<string>, invalidFunc: string, i: nat, blockStartIdx: nat, buffer: seq<string>,
    newLines: seq<string>, ghost total: seq<string>)
    returns (next: nat, inside': bool, start': nat, buffer': seq<string>, written: seq<string>)
    requires i < |lines| && !IsClose(lines[i]) && Progress(lines, invalidFunc, i, true, blockStartIdx, buffer, newLines, total)
    ensures next == i + 1 && inside' && start' == blockStartIdx && buffer' == buffer && written == newLines
    ensures i < next <= |lines| && Progress(lines, invalidFunc, next, inside', start', buffer', written, total)
  {
    ProgressBody(lines, invalidFunc, i, blockStartIdx, buffer, newLines, total);
    next, inside', start', buffer', written := i + 1, true, blockStartIdx, buffer, newLines;
  }

  /** A line read outside a block: a group header, or a line written as it is. */
  method StepOutside(lines: seq<string>, invalidFunc: string, i: nat, newLines: seq<string>, ghost total: seq<string>)
    returns (next: nat, inside': bool, start': nat, buffer': seq<string>, written: seq<string>)
    requires i < |lines| && Outside(lines, invalidFunc, i, newLines, total)
    ensures i < next <= |lines| && Progress(lines, invalidFunc, next, inside', start', buffer', written, total)
  {
    var line := lines[i];
    start' := i;
    if Contains(TrimSpace(line), ":= r.Group(") {
      var last;
      buffer', last, inside', written := GroupHeader(lines, invalidFunc, i, newLines, total);
      next := last + 1;
    } else {
      ProgressPlain(lines, invalidFunc, i, newLines, total);
      next, inside', buffer', written := i + 1, false, [], newLines + [line];
    }
  }

  /** The line loop of `cleanRouterBlock`, writing out `total`. */
  method CleanLines(lines: seq<string>, invalidFunc: string, ghost total: seq<string>) returns (newLines: seq<string>)
    requires Outside(lines, invalidFunc, 0, [], total)
    ensures newLines == total
  {
    newLines := [];
    var insideBlock := false;
    var blockStartIdx := 0;
    var buffer: seq<string> := [];
    var i := 0;
    while i < |lines|
      invariant Progress(lines, invalidFunc, i, insideBlock, blockStartIdx, buffer, newLines, total)
      decreases |lines| - i
    {
      i, insideBlock, blockStartIdx, buffer, newLines := CleanStep(lines, invalidFunc, i, insideBlock, blockStartIdx, buffer, newLines, total);
    }
    if insideBlock {
      CleanUnclosed(lines, invalidFunc, blockStartIdx, false);
    }
    AppendEmpty(newLines);
  }

  /** Lines of `body` that call the removed function. */
  ghost predicate NoCalls(body: seq<string>, invalidFunc: string)
  {
    forall k | 0 <= k < |body| :: !CallsInvalid(body[k], invalidFunc)
  }

  /** The filter drops exactly the lines calling the removed function. */
  lemma {:induction false} FilterCallsDropsCalls(body: seq<string>, invalidFunc: string)
    ensures NoCalls(FilterCalls(body, invalidFunc), invalidFunc)
    ensures NoCalls(body, invalidFunc) ==> FilterCalls(body, invalidFunc) == body
    ensures Subseq(FilterCalls(body, invalidFunc), body)
  {
    if body == [] {
      SubseqEmpty(body);
    } else {
      var n := |body| - 1;
      FilterCallsDropsCalls(body[..n], invalidFunc);
      SubseqSnoc(FilterCalls(body[..n], invalidFunc), body[..n], body[n], !CallsInvalid(body[n], invalidFunc));
      InitLast(body);
    }
  }

  /** A block none of whose body lines calls the removed function is written unchanged. */
  lemma BlockWithoutCallsKept(lines: seq<string>, invalidFunc: string, s: nat, e: nat, keepUse: bool)
    requires OpensBlock(lines, s) && e == CloseFrom(lines, s + 3) < |lines|
    requires e > s + 3 && NoCalls(lines[s + 3..e], invalidFunc)
    ensures CleanFrom(lines, invalidFunc, s, keepUse) == lines[s..e + 1] + CleanFrom(lines, invalidFunc, e + 1, keepUse)
  {
    var body := lines[s + 3..e];
    assert FilterCalls(body, invalidFunc) == body by {
      FilterCallsDropsCalls(body, invalidFunc);
    }
    assert body != [] by {
      assert |body| == e - (s + 3);
    }
    CleanClosed(lines, invalidFunc, s, e, body, keepUse);
    SliceFrame(lines, s, s + 3, e);
  }

  /** A selection from lines that all call the removed function, none of which it keeps, is empty. */
  lemma NoCallsAmongCalls(kept: seq<string>, body: seq<string>, invalidFunc: string)
    requires NoCalls(kept, invalidFunc) && Subseq(kept, body)
    requires forall k | 0 <= k < |body| :: CallsInvalid(body[k], invalidFunc)
    ensures kept == []
  {
    SubseqMembers(kept, body);
  }

  /** A block whose every body line calls the removed function disappears, header, `Use` line and braces included. */
  lemma BlockOfCallsDropped(lines: seq<string>, invalidFunc: string, s: nat, e: nat, keepUse: bool)
    requires OpensBlock(lines, s) && e == CloseFrom(lines, s + 3) < |lines|
    requires forall k | s + 3 <= k < e :: CallsInvalid(lines[k], invalidFunc)
    ensures CleanFrom(lines, invalidFunc, s, keepUse) == CleanFrom(lines, invalidFunc, e + 1, keepUse)
  {
    var body := lines[s + 3..e];
    assert FilterCalls(body, invalidFunc) == [] by {
      FilterCallsDropsCalls(body, invalidFunc);
      forall k | 0 <= k < |body| ensures CallsInvalid(body[k], invalidFunc) {
        assert body[k] == lines[s + 3 + k];
      }
      NoCallsAmongCalls(FilterCalls(body, invalidFunc), body, invalidFunc);
    }
    CleanClosed(lines, invalidFunc, s, e, [], keepUse);
    AppendEmpty(CleanFrom(lines, invalidFunc, e + 1, keepUse));
  }

  /** A closed block keeps some of its lines, the rest of the output comes from after it. */
  lemma SubseqClosed(lines: seq<string>, invalidFunc: string, i: nat, keepUse: bool)
    requires OpensBlock(lines, i) && CloseFrom(lines, i + 3) < |lines|
    ensures Subseq(CleanFrom(lines, invalidFunc, i, keepUse), lines[i..])
    decreases |lines| - i, 0
  {
    var e := CloseFrom(lines, i + 3);
    CleanSubseq(lines, invalidFunc, e + 1, keepUse);
    ClosedThenRest(lines, invalidFunc, i, e, keepUse);
  }

  /** The block's selection followed by a selection from after it is a selection from the block on. */
  lemma ClosedThenRest(lines: seq<string>, invalidFunc: string, i: nat, e: nat, keepUse: bool)
    requires OpensBlock(lines, i) && e == CloseFrom(lines, i + 3) < |lines|
    requires Subseq(CleanFrom(lines, invalidFunc, e + 1, keepUse), lines[e + 1..])
    ensures Subseq(CleanFrom(lines, invalidFunc, i, keepUse), lines[i..])
  {
    CleanOpened(lines, invalidFunc, i, keepUse);
    BlockSubseq(lines, invalidFunc, i, e);
    SubseqSplit(lines, i, e + 1, BlockKept(lines, invalidFunc, i, e), CleanFrom(lines, invalidFunc, e + 1, keepUse));
  }

  /** What a closed block writes is a selection from its lines. */
  lemma BlockSubseq(lines: seq<string>, invalidFunc: string, i: nat, e: nat)
    requires OpensBlock(lines, i) && e == CloseFrom(lines, i + 3) < |lines|
    ensures Subseq(BlockKept(lines, invalidFunc, i, e), lines[i..e + 1])
  {
    var body := FilterCalls(lines[i + 3..e], invalidFunc);
    if body == [] {
      SubseqEmpty(lines[i..e + 1]);
    } else {
      FilterCallsDropsCalls(lines[i + 3..e], invalidFunc);
      SubseqFrame(lines, i, i + 3, e, body);
    }
  }

  /** A header and `Use` line without `{`: one or both are kept. */
  lemma SubseqUnopened(lines: seq<string>, invalidFunc: string, i: nat, keepUse: bool)
    requires i + 1 < |lines| && IsHeader(lines[i]) && IsUse(lines[i + 1])
    requires !(i + 2 < |lines| && IsOpen(lines[i + 2]))
    ensures Subseq(CleanFrom(lines, invalidFunc, i, keepUse), lines[i..])
    decreases |lines| - i, 0
  {
    CleanSubseq(lines, invalidFunc, i + 2, keepUse);
    var head := if keepUse then lines[i..i + 2] else [lines[i]];
    CleanUnopened(lines, invalidFunc, i, keepUse);
    assert Subseq(head, lines[i..i + 2]) by {
      if keepUse {
        SubseqRefl(lines[i..i + 2]);
      } else {
        SubseqFirstOfTwo(lines, i);
      }
    }
    SubseqSplit(lines, i, i + 2, head, CleanFrom(lines, invalidFunc, i + 2, keepUse));
  }

  /** Any other line is kept. */
  lemma SubseqPlain(lines: seq<string>, invalidFunc: string, i: nat, keepUse: bool)
    requires i < |lines| && !(IsHeader(lines[i]) && i + 1 < |lines| && IsUse(lines[i + 1]))
    ensures Subseq(CleanFrom(lines, invalidFunc, i, keepUse), lines[i..])
    decreases |lines| - i, 0
  {
    CleanSubseq(lines, invalidFunc, i + 1, keepUse);
    CleanPlain(lines, invalidFunc, i, keepUse);
    SubseqRefl(lines[i..i + 1]);
    assert lines[i..i + 1] == [lines[i]];
    SubseqSplit(lines, i, i + 1, [lines[i]], CleanFrom(lines, invalidFunc, i + 1, keepUse));
  }

  /** The output is the input with some lines left out, in both readings. */
  lemma {:induction false} CleanSubseq(lines: seq<string>, invalidFunc: string, i: nat, keepUse: bool)
    requires i <= |lines|
    ensures Subseq(CleanFrom(lines, invalidFunc, i, keepUse), lines[i..])
    decreases |lines| - i, 1
  {
    if i == |lines| {
      SubseqEmpty(lines[i..]);
    } else if !(IsHeader(lines[i]) && i + 1 < |lines| && IsUse(lines[i + 1])) {
      SubseqPlain(lines, invalidFunc, i, keepUse);
    } else if !(i + 2 < |lines| && IsOpen(lines[i + 2])) {
      SubseqUnopened(lines, invalidFunc, i, keepUse);
    } else if CloseFrom(lines, i + 3) == |lines| {
      CleanUnclosed(lines, invalidFunc, i, keepUse);
      SubseqEmpty(lines[i..]);
    } else {
      SubseqClosed(lines, invalidFunc, i, keepUse);
    }
  }

  /** No recognised block anywhere in `lines`. */
  ghost predicate NoBlock(lines: seq<string>)
  {
    forall s | 0 <= s < |lines| :: !OpensBlock(lines, s)
  }

  /**
   * Corrected reading: with the `Use` line kept, a file without a
   * recognised block is written back unchanged.
   */
  lemma {:induction false} CleanWithoutBlocks(lines: seq<string>, invalidFunc: string, i: nat)
    requires i <= |lines| && NoBlock(lines)
    ensures CleanFrom(lines, invalidFunc, i, true) == lines[i..]
    decreases |lines| - i
  {
    if i < |lines| {
      if IsHeader(lines[i]) && i + 1 < |lines| && IsUse(lines[i + 1]) {
        assert !OpensBlock(lines, i);
        CleanUnopened(lines, invalidFunc, i, true);
        CleanWithoutBlocks(lines, invalidFunc, i + 2);
        SliceJoin(lines, i, i + 2);
      } else {
        CleanPlain(lines, invalidFunc, i, true);
        CleanWithoutBlocks(lines, invalidFunc, i + 1);
        SliceJoin(lines, i, i + 1);
        assert lines[i..i + 1] == [lines[i]];
      }
    }
  }

  /** The header line of the example below. */
  lemma HeaderExample()
    ensures IsHeader("g := r.Group(")
  {
    TrimSpaceTrimmed("g := r.Group(");
    ContainsInfix("g ", ":= r.Group(", "");
    assert "g " + ":= r.Group(" + "" == "g := r.Group(";
  }

  /** The `Use` line of the example below. */
  lemma UseExample()
    ensures IsUse("g.Use(")
  {
    TrimSpaceTrimmed("g.Use(");
    ContainsInfix("g", ".Use(", "");
    assert "g" + ".Use(" + "" == "g.Use(";
  }

  /**
   * As written: a group header followed by a `Use` line and no `{` opens
   * no block, yet the `Use` line is not written back.
   */
  lemma UseLineDroppedAsWritten()
    ensures var lines := ["g := r.Group(", "g.Use("];
      NoBlock(lines) && CleanFrom(lines, "f", 0, false) == ["g := r.Group("] && CleanFrom(lines, "f", 0, true) == lines
  {
    var lines := ["g := r.Group(", "g.Use("];
    HeaderExample();
    UseExample();
    CleanUnopened(lines, "f", 0, false);
    CleanUnopened(lines, "f", 0, true);
    assert lines[0..2] == lines;
  }

  // ---------------------------------------------------------------------
  // updateEnterGo
  // ---------------------------------------------------------------------

  /** The group names of cmdgen/config/eunm.go. */
  const GroupPublic := "Public"
  const GroupAuth := "Auth"
  const GroupToken := "Token"

  /** The variable prefix of a group: `public`, or `private` before any other group's name. */
  function GroupName(nowGroup: string): string
  {
    if nowGroup != GroupPublic then "private" + nowGroup else ToLower(nowGroup)
  }

  /** Different groups never share a variable. */
  lemma GroupNameInjective(a: string, b: string)
    requires GroupName(a) == GroupName(b)
    ensures a == b
  {
    if a != GroupPublic && b != GroupPublic {
      assert a == GroupName(a)[7..] && b == GroupName(b)[7..];
    }
  }

  /** The text that marks the declaration of a group's variable. */
  function GroupDecl(groupName: string): string
  {
    groupName + "Group := r.Group("
  }

  predicate IsReturn(line: string)
  {
    TrimSpace(line) == "return r"
  }

  predicate CallsRouter(line: string, newRouter: string)
  {
    Contains(line, newRouter + "(")
  }

  predicate DeclaresGroup(line: string, groupName: string)
  {
    Contains(line, GroupDecl(groupName))
  }

  /** The last line satisfying `p`, or -1. */
  function LastIndex(lines: seq<string>, p: string -> bool): (r: int)
    ensures -1 <= r < |lines|
    ensures r >= 0 ==> p(lines[r])
    ensures forall k | r < k < |lines| :: !p(lines[k])
  {
    if lines == [] then -1
    else if p(lines[|lines| - 1]) then |lines| - 1
    else LastIndex(lines[..|lines| - 1], p)
  }

  /** `DeclaresGroup` for one group, as a value. */
  function Declares(groupName: string): string -> bool
  {
    line => DeclaresGroup(line, groupName)
  }

  /** The variables of the scan loop of `updateEnterGo` after some lines. */
  datatype EnterScan = EnterScan(returnIndex: int, functionExists: bool, foundGroup: bool, groupStart: int, groupEnd: int)

  const EnterStart := EnterScan(-1, false, false, -1, -1)

  /** One iteration of the scan loop, on line `i`. */
  function EnterStep(st: EnterScan, i: nat, line: string, newRouter: string, groupName: string): EnterScan
  {
    var returnIndex := if IsReturn(line) then i else st.returnIndex;
    var functionExists := st.functionExists || CallsRouter(line, newRouter);
    var declares := DeclaresGroup(line, groupName);
    var foundGroup := st.foundGroup || declares;
    var groupStart := if declares then i else st.groupStart;
    if foundGroup && IsClose(line) then EnterScan(returnIndex, functionExists, false, groupStart, i)
    else EnterScan(returnIndex, functionExists, foundGroup, groupStart, st.groupEnd)
  }

  /** The scan loop over `lines`. */
  function ScanEnter(lines: seq<string>, newRouter: string, groupName: string): EnterScan
  {
    if lines == [] then EnterStart
    else EnterStep(ScanEnter(lines[..|lines| - 1], newRouter, groupName), |lines| - 1, lines[|lines| - 1], newRouter, groupName)
  }

  /** What the scan loop finds, stated without the loop. */
  ghost predicate ScanMeaning(lines: seq<string>, newRouter: string, groupName: string, st: EnterScan)
  {
    && st.returnIndex == LastIndex(lines, IsReturn)
    && (st.functionExists <==> exists k | 0 <= k < |lines| :: CallsRouter(lines[k], newRouter))
    && st.groupStart == LastIndex(lines, Declares(groupName))
    && (st.foundGroup <==> st.groupStart != -1 && CloseFrom(lines, st.groupStart) == |lines|)
    && (st.groupStart != -1 && CloseFrom(lines, st.groupStart) < |lines| ==> st.groupEnd == CloseFrom(lines, st.groupStart))
    && -1 <= st.groupEnd < |lines|
    && (st.groupEnd != -1 ==> IsClose(lines[st.groupEnd]))
  }

  /** One more line moves the first `}` at or after `j` only when there was none. */
  lemma CloseFromSnoc(lines: seq<string>, j: nat)
    requires j < |lines|
    ensures var n := |lines| - 1; var e := CloseFrom(lines[..n], j);
      CloseFrom(lines, j) == if e < n then e else if IsClose(lines[n]) then n else n + 1
  {
    var n := |lines| - 1;
    assert forall k | j <= k < n :: lines[..n][k] == lines[k];
  }

  /** The return line after one more line. */
  lemma ScanReturnStep(lines: seq<string>, newRouter: string, groupName: string, st: EnterScan)
    requires lines != [] && st.returnIndex == LastIndex(lines[..|lines| - 1], IsReturn)
    ensures EnterStep(st, |lines| - 1, lines[|lines| - 1], newRouter, groupName).returnIndex == LastIndex(lines, IsReturn)
  {
  }

  /** The router call after one more line. */
  lemma ScanCallStep(lines: seq<string>, newRouter: string, groupName: string, st: EnterScan)
    requires lines != []
    requires st.functionExists <==> exists k | 0 <= k < |lines| - 1 :: CallsRouter(lines[k], newRouter)
    ensures EnterStep(st, |lines| - 1, lines[|lines| - 1], newRouter, groupName).functionExists
      <==> exists k | 0 <= k < |lines| :: CallsRouter(lines[k], newRouter)
  {
    var n := |lines| - 1;
    if exists k | 0 <= k < |lines| :: CallsRouter(lines[k], newRouter) {
      var k :| 0 <= k < |lines| && CallsRouter(lines[k], newRouter);
      if k < n {
        assert exists k | 0 <= k < n :: CallsRouter(lines[k], newRouter);
      }
    }
  }

  /** The group declaration and its `}` after one more line. */
  lemma ScanGroupStep(lines: seq<string>, newRouter: string, groupName: string, st: EnterScan)
    requires lines != []
    requires var prev := lines[..|lines| - 1];
      && st.groupStart == LastIndex(prev, Declares(groupName))
      && (st.foundGroup <==> st.groupStart != -1 && CloseFrom(prev, st.groupStart) == |prev|)
      && (st.groupStart != -1 && CloseFrom(prev, st.groupStart) < |prev| ==> st.groupEnd == CloseFrom(prev, st.groupStart))
      && -1 <= st.groupEnd < |prev|
      && (st.groupEnd != -1 ==> IsClose(prev[st.groupEnd]))
    ensures var st' := EnterStep(st, |lines| - 1, lines[|lines| - 1], newRouter, groupName);
      && st'.groupStart == LastIndex(lines, Declares(groupName))
      && (st'.foundGroup <==> st'.groupStart != -1 && CloseFrom(lines, st'.groupStart) == |lines|)
      && (st'.groupStart != -1 && CloseFrom(lines, st'.groupStart) < |lines| ==> st'.groupEnd == CloseFrom(lines, st'.groupStart))
      && -1 <= st'.groupEnd < |lines|
      && (st'.groupEnd != -1 ==> IsClose(lines[st'.groupEnd]))
  {
    var n := |lines| - 1;
    if DeclaresGroup(lines[n], groupName) {
      assert Declares(groupName)(lines[n]);
      CloseFromSnoc(lines, n);
    } else {
      assert !Declares(groupName)(lines[n]);
      if st.groupStart != -1 {
        CloseFromSnoc(lines, st.groupStart);
      }
    }
  }

  /** The scan loop finds the last `return r`, whether the router is called, the last declaration of the group and the `}` closing it. */
  lemma {:induction false} ScanEnterMeaning(lines: seq<string>, newRouter: string, groupName: string)
    ensures ScanMeaning(lines, newRouter, groupName, ScanEnter(lines, newRouter, groupName))
  {
    if lines != [] {
      var prev := lines[..|lines| - 1];
      var st := ScanEnter(prev, newRouter, groupName);
      ScanEnterMeaning(prev, newRouter, groupName);
      ScanReturnStep(lines, newRouter, groupName, st);
      assert forall k | 0 <= k < |prev| :: prev[k] == lines[k];
      ScanCallStep(lines, newRouter, groupName, st);
      ScanGroupStep(lines, newRouter, groupName, st);
    }
  }

  /** The scan of one more line. */
  lemma ScanEnterSnoc(lines: seq<string>, i: nat, newRouter: string, groupName: string)
    requires i < |lines|
    ensures ScanEnter(lines[..i + 1], newRouter, groupName)
      == EnterStep(ScanEnter(lines[..i], newRouter, groupName), i, lines[i], newRouter, groupName)
  {
    assert lines[..i + 1][..i] == lines[..i];
  }

  /** `"\t%sGroup := r.Group(\"%s\")"` filled in. */
  function GroupLine(groupName: string, routerPrefix: string): string
  {
    "\t" + GroupDecl(groupName) + ("\"" + routerPrefix + "\")")
  }

  /** The call registering `newRouter` in the group's block. */
  function CallLine(newRouter: string, groupName: string): string
  {
    "\t\t" + (newRouter + "(") + (groupName + "Group)")
  }

  /** The block `updateEnterGo` writes before `return r` for a group that has none. */
  function NewGroupBlock(groupName: string, nowGroup: string, newRouter: string, routerPrefix: string): seq<string>
  {
    [GroupLine(groupName, routerPrefix)] + UseLines(groupName, nowGroup) + ["\t{"] + [CallLine(newRouter, groupName)] + ["\t}\n"]
  }

  /** The middleware of a new group: JWT and Casbin for `Auth`, JWT for `Token`, none otherwise. */
  function UseLines(groupName: string, nowGroup: string): seq<string>
  {
    if nowGroup == GroupAuth then ["\t" + groupName + "Group.Use(gzmiddleware.Jwt()).Use(gzmiddleware.Casbin())"]
    else if nowGroup == GroupToken then ["\t" + groupName + "Group.Use(gzmiddleware.Jwt())"]
    else []
  }

  /** The outcome of `updateEnterGo`: whether the file is written, and the lines. */
  datatype Edit = Edit(inserted: bool, content: seq<string>)

  /**
   * `updateEnterGo` on an existing file.  A group with no declaration gets a
   * new block before the last `return r` (and none when there is no such
   * line, though the file is still written); a declared group whose block
   * is closed and does not yet call the router gets the call before its `}`.
   */
  function EnterEdit(lines: seq<string>, newRouter: string, nowGroup: string, routerPrefix: string): Edit
  {
    var groupName := GroupName(nowGroup);
    var st := ScanEnter(lines, newRouter, groupName);
    ScanEnterMeaning(lines, newRouter, groupName);
    if st.groupStart == -1 then
      if st.returnIndex != -1 then
        Edit(true, lines[..st.returnIndex] + NewGroupBlock(groupName, nowGroup, newRouter, routerPrefix) + lines[st.returnIndex..])
      else Edit(true, lines)
    else if !st.functionExists && st.groupEnd != -1 then
      Edit(true, lines[..st.groupEnd] + [CallLine(newRouter, groupName)] + lines[st.groupEnd..])
    else Edit(false, lines)
  }

  /** The scan loop of `updateEnterGo`: it copies the lines and records what it meets. */
  method ScanEnterGo(lines: seq<string>, newRouter: string, groupName: string)
    returns (newContent: seq<string>, returnIndex: int, functionExists: bool, foundGroup: bool, groupStartIndex: int, groupEndIndex: int)
    ensures newContent == lines
    ensures EnterScan(returnIndex, functionExists, foundGroup, groupStartIndex, groupEndIndex) == ScanEnter(lines, newRouter, groupName)
  {
    newContent := [];
    foundGroup, functionExists := false, false;
    groupStartIndex, groupEndIndex, returnIndex := -1, -1, -1;
    for i := 0 to |lines|
      invariant newContent == lines[..i]
      invariant EnterScan(returnIndex, functionExists, foundGroup, groupStartIndex, groupEndIndex)
        == ScanEnter(lines[..i], newRouter, groupName)
    {
      var line := lines[i];
      ScanEnterSnoc(lines, i, newRouter, groupName);
      newContent := newContent + [line];
      if TrimSpace(line) == "return r" {
        returnIndex := i;
      }
      if Contains(line, newRouter + "(") {
        functionExists := true;
      }
      if Contains(line, groupName + "Group := r.Group(") {
        foundGroup := true;
        groupStartIndex := i;
      }
      if foundGroup && TrimSpace(line) == "}" {
        groupEndIndex := i;
        foundGroup := false;
      }
    }
    assert lines[..|lines|] == lines;
  }

  /** `updateEnterGo` on the lines of an existing entry file. */
  method UpdateEnterGo(lines: seq<string>, newRouter: string, nowGroup: string, routerPrefix: string)
    returns (inserted: bool, newContent: seq<string>)
    ensures Edit(inserted, newContent) == EnterEdit(lines, newRouter, nowGroup, routerPrefix)
  {
    var groupName := ToLower(nowGroup);
    if nowGroup != GroupPublic {
      groupName := "private" + nowGroup;
    }
    inserted := false;
    var returnIndex, functionExists, foundGroup, groupStartIndex, groupEndIndex;
    newContent, returnIndex, functionExists, foundGroup, groupStartIndex, groupEndIndex := ScanEnterGo(lines, newRouter, groupName);
    assert groupName == GroupName(nowGroup);
    ScanEnterMeaning(lines, newRouter, groupName);
    if groupStartIndex == -1 {
      if returnIndex != -1 {
        ghost var added := [GroupLine(groupName, routerPrefix)];
        newContent := newContent[..returnIndex] + [GroupLine(groupName, routerPrefix)];
        AppendAssoc(lines[..returnIndex], added, UseLines(groupName, nowGroup));
        if nowGroup == GroupAuth {
          newContent := newContent + ["\t" + groupName + "Group.Use(gzmiddleware.Jwt()).Use(gzmiddleware.Casbin())"];
        } else if nowGroup == GroupToken {
          newContent := newContent + ["\t" + groupName + "Group.Use(gzmiddleware.Jwt())"];
        } else {
          AppendEmpty(newContent);
        }
        added := added + UseLines(groupName, nowGroup);
        newContent := newContent + ["\t{"];
        AppendAssoc(lines[..returnIndex], added, ["\t{"]);
        added := added + ["\t{"];
        newContent := newContent + [CallLine(newRouter, groupName)];
        AppendAssoc(lines[..returnIndex], added, [CallLine(newRouter, groupName)]);
        added := added + [CallLine(newRouter, groupName)];
        newContent := newContent + ["\t}\n"];
        AppendAssoc(lines[..returnIndex], added, ["\t}\n"]);
        added := added + ["\t}\n"];
        newContent := newContent + lines[returnIndex..];
      }
      inserted := true;
    } else if !functionExists && groupEndIndex != -1 {
      newContent := newContent[..groupEndIndex] + [CallLine(newRouter, groupName)];
      newContent := newContent + lines[groupEndIndex..];
      inserted := true;
    }
  }

  /** A line satisfying `p` at `k`: the last such line is not before it. */
  lemma LastIndexAtLeast(lines: seq<string>, p: string -> bool, k: nat)
    requires k < |lines| && p(lines[k])
    ensures LastIndex(lines, p) >= k
  {
  }

  /** The line written for a new group declares it. */
  lemma GroupLineDeclares(groupName: string, routerPrefix: string)
    ensures DeclaresGroup(GroupLine(groupName, routerPrefix), groupName)
  {
    ContainsInfix("\t", GroupDecl(groupName), "\"" + routerPrefix + "\")");
  }

  /** The call line written calls the router. */
  lemma CallLineCalls(newRouter: string, groupName: string)
    ensures CallsRouter(CallLine(newRouter, groupName), newRouter)
  {
    ContainsInfix("\t\t", newRouter + "(", groupName + "Group)");
  }

  /** Without a declaration of the group, a new block goes before the last `return r`; the file is written either way. */
  lemma EnterEditNewGroup(lines: seq<string>, newRouter: string, nowGroup: string, routerPrefix: string)
    requires LastIndex(lines, Declares(GroupName(nowGroup))) == -1
    ensures var r := LastIndex(lines, IsReturn);
      EnterEdit(lines, newRouter, nowGroup, routerPrefix)
        == if r == -1 then Edit(true, lines)
           else Edit(true, lines[..r] + NewGroupBlock(GroupName(nowGroup), nowGroup, newRouter, routerPrefix) + lines[r..])
  {
    ScanEnterMeaning(lines, newRouter, GroupName(nowGroup));
  }

  /**
   * With a declaration of the group, a router already called anywhere in
   * the file leaves it alone; otherwise the call goes right before the
   * first `}` after the last declaration.
   */
  lemma EnterEditExistingGroup(lines: seq<string>, newRouter: string, nowGroup: string, routerPrefix: string)
    requires LastIndex(lines, Declares(GroupName(nowGroup))) != -1
    ensures (exists k | 0 <= k < |lines| :: CallsRouter(lines[k], newRouter))
      ==> EnterEdit(lines, newRouter, nowGroup, routerPrefix) == Edit(false, lines)
    ensures var e := CloseFrom(lines, LastIndex(lines, Declares(GroupName(nowGroup))));
      (forall k | 0 <= k < |lines| :: !CallsRouter(lines[k], newRouter)) && e < |lines| ==>
        EnterEdit(lines, newRouter, nowGroup, routerPrefix)
          == Edit(true, lines[..e] + [CallLine(newRouter, GroupName(nowGroup))] + lines[e..])
  {
    ScanEnterMeaning(lines, newRouter, GroupName(nowGroup));
  }

  /** Every line of the file is written back, in order, around what is inserted. */
  lemma EnterEditKeepsLines(lines: seq<string>, newRouter: string, nowGroup: string, routerPrefix: string)
    ensures Subseq(lines, EnterEdit(lines, newRouter, nowGroup, routerPrefix).content)
  {
    var groupName := GroupName(nowGroup);
    var st := ScanEnter(lines, newRouter, groupName);
    ScanEnterMeaning(lines, newRouter, groupName);
    if st.groupStart == -1 && st.returnIndex != -1 {
      SubseqInsert(lines, st.returnIndex, NewGroupBlock(groupName, nowGroup, newRouter, routerPrefix));
    } else if st.groupStart != -1 && !st.functionExists && st.groupEnd != -1 {
      SubseqInsert(lines, st.groupEnd, [CallLine(newRouter, groupName)]);
    } else {
      SubseqRefl(lines);
    }
  }

  /** After a new group block is written, the group is declared and the router called. */
  lemma NewGroupSettles(lines: seq<string>, r: nat, newRouter: string, nowGroup: string, routerPrefix: string)
    requires r <= |lines|
    ensures var once := lines[..r] + NewGroupBlock(GroupName(nowGroup), nowGroup, newRouter, routerPrefix) + lines[r..];
      EnterEdit(once, newRouter, nowGroup, routerPrefix) == Edit(false, once)
  {
    var groupName := GroupName(nowGroup);
    var once := lines[..r] + NewGroupBlock(groupName, nowGroup, newRouter, routerPrefix) + lines[r..];
    var u := |UseLines(groupName, nowGroup)|;
    assert once[r] == GroupLine(groupName, routerPrefix);
    assert once[r + u + 2] == CallLine(newRouter, groupName);
    GroupLineDeclares(groupName, routerPrefix);
    CallLineCalls(newRouter, groupName);
    assert Declares(groupName)(once[r]);
    LastIndexAtLeast(once, Declares(groupName), r);
    EnterEditExistingGroup(once, newRouter, nowGroup, routerPrefix);
  }

  /** After the call is written into a declared group, the router is called. */
  lemma CallSettles(lines: seq<string>, s: nat, e: nat, newRouter: string, nowGroup: string, routerPrefix: string)
    requires s < |lines| && e <= |lines| && DeclaresGroup(lines[s], GroupName(nowGroup))
    ensures var once := lines[..e] + [CallLine(newRouter, GroupName(nowGroup))] + lines[e..];
      EnterEdit(once, newRouter, nowGroup, routerPrefix) == Edit(false, once)
  {
    var groupName := GroupName(nowGroup);
    var once := lines[..e] + [CallLine(newRouter, groupName)] + lines[e..];
    var s' := if s < e then s else s + 1;
    assert once[s'] == lines[s];
    assert Declares(groupName)(once[s']);
    LastIndexAtLeast(once, Declares(groupName), s');
    CallLineCalls(newRouter, groupName);
    assert CallsRouter(once[e], newRouter);
    EnterEditExistingGroup(once, newRouter, nowGroup, routerPrefix);
  }

  /**
   * Registering a router twice changes nothing the second time: once the
   * group is declared and the router called, the file is left alone.
   */
  lemma EnterEditIdempotent(lines: seq<string>, newRouter: string, nowGroup: string, routerPrefix: string)
    ensures var once := EnterEdit(lines, newRouter, nowGroup, routerPrefix).content;
      EnterEdit(once, newRouter, nowGroup, routerPrefix).content == once
    ensures var once := EnterEdit(lines, newRouter, nowGroup, routerPrefix).content;
      once != lines ==> !EnterEdit(once, newRouter, nowGroup, routerPrefix).inserted
  {
    var groupName := GroupName(nowGroup);
    var st := ScanEnter(lines, newRouter, groupName);
    ScanEnterMeaning(lines, newRouter, groupName);
    if st.groupStart == -1 && st.returnIndex != -1 {
      NewGroupSettles(lines, st.returnIndex, newRouter, nowGroup, routerPrefix);
    } else if st.groupStart != -1 && !st.functionExists && st.groupEnd != -1 {
      assert Declares(groupName)(lines[st.groupStart]);
      CallSettles(lines, st.groupStart, st.groupEnd, newRouter, nowGroup, routerPrefix);
    }
  }
}
