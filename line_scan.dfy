/** The line-oriented fallback applied to every file that is not Python (utils.py:151-162). */
module LineScan {
  import opened Text
  import opened Records

  /** `s[4:].split("(")[0]` for a stripped line `s` that starts with `"def "`. */
  function DefName(s: string): (name: string)
    requires StartsWith(s, "def ")
    ensures '(' !in name
    ensures 4 + |name| <= |s| && name == s[4..4 + |name|]
    ensures 4 + |name| < |s| ==> s[4 + |name|] == '('
  {
    TakeUntil(s[4..], '(')
  }

  /** `s[6:].split("(")[0].split(":")[0]` for a stripped line `s` that starts with `"class "`. */
  function ClassName(s: string): (name: string)
    requires StartsWith(s, "class ")
    ensures '(' !in name && ':' !in name
    ensures 6 + |name| <= |s| && name == s[6..6 + |name|]
    ensures 6 + |name| < |s| ==> s[6 + |name|] in "(:"
  {
    var upToParen := TakeUntil(s[6..], '(');
    var name := TakeUntil(upToParen, ':');
    assert upToParen == s[6..6 + |upToParen|];
    assert name == s[6..6 + |name|];
    assert |name| < |upToParen| ==> s[6 + |name|] == upToParen[|name|] == ':';
    assert |name| == |upToParen| && 6 + |name| < |s| ==> s[6 + |name|] == '(';
    name
  }

  /** The entries one line contributes: a function, a class, or nothing. */
  function ScanLine(line: string): Facts
  {
    var s := Strip(line);
    Facts(if StartsWith(s, "def ") then [ScannedFunction(DefName(s))] else [],
          if StartsWith(s, "class ") then [ScannedClass(ClassName(s))] else [],
          [])
  }

  function ScanAll(lines: seq<string>): Facts
  {
    if lines == [] then Empty else ScanAll(lines[..|lines| - 1]).Then(ScanLine(lines[|lines| - 1]))
  }

  /** The facts the fallback produces for a file's content. */
  function ScanFacts(content: string): Facts
  {
    ScanAll(SplitLines(content))
  }

  /** The loop of utils.py:152-162 over `content.splitlines()`. */
  method ScanLines(content: string) returns (facts: Facts)
    ensures facts == ScanFacts(content)
  {
    var funcs: seq<FunctionFact> := [];
    var classes: seq<ClassFact> := [];
    var lines := SplitLines(content);
    for i := 0 to |lines|
      invariant Facts(funcs, classes, []) == ScanAll(lines[..i])
    {
      var s := Strip(lines[i]);
      if StartsWith(s, "def ") {
        funcs := funcs + [ScannedFunction(DefName(s))];
      }
      if StartsWith(s, "class ") {
        classes := classes + [ScannedClass(ClassName(s))];
      }
      assert lines[..i + 1][..i] == lines[..i];
      assert ScanAll(lines[..i + 1]) == ScanAll(lines[..i]).Then(ScanLine(lines[i]));
    }
    assert lines[..|lines|] == lines;
    facts := Facts(funcs, classes, []);
  }

  /** What every scanned entry looks like: a name-only entry, cut before any `(` (and, for classes, `:`). */
  ghost predicate ScanShaped(f: Facts)
  {
    && f.calls == []
    && (forall i :: 0 <= i < |f.functions| ==> f.functions[i].ScannedFunction? && '(' !in f.functions[i].name)
    && (forall i :: 0 <= i < |f.classes| ==>
          f.classes[i].ScannedClass? && '(' !in f.classes[i].name && ':' !in f.classes[i].name)
  }

  /** The fallback never yields calls, and its names hold no `(` and (for classes) no `:`. */
  lemma {:induction false} ScanAllShaped(lines: seq<string>)
    ensures ScanShaped(ScanAll(lines))
  {
    if lines != [] {
      ScanAllShaped(lines[..|lines| - 1]);
      var a := ScanAll(lines[..|lines| - 1]);
      var b := ScanLine(lines[|lines| - 1]);
      assert ScanShaped(b);
      forall i | |a.functions| <= i < |a.functions| + |b.functions|
        ensures a.Then(b).functions[i] == b.functions[i - |a.functions|]
      {
      }
      forall i | |a.classes| <= i < |a.classes| + |b.classes|
        ensures a.Then(b).classes[i] == b.classes[i - |a.classes|]
      {
      }
    }
  }

  lemma ScanFactsShaped(content: string)
    ensures ScanShaped(ScanFacts(content))
  {
    ScanAllShaped(SplitLines(content));
  }

  /** A file written as lines, each ended by `"\n"`, is scanned line by line. */
  lemma ScanOfJoinedLines(lines: seq<string>)
    requires forall i, j :: 0 <= i < |lines| && 0 <= j < |lines[i]| ==> !IsLineBreak(lines[i][j])
    ensures ScanFacts(JoinLines(lines)) == ScanAll(lines)
  {
    SplitJoinLines(lines);
  }

  lemma StripNoSurroundingSpace(s: string)
    requires s != [] && !IsSpace(s[0]) && !IsSpace(s[|s| - 1])
    ensures Strip(s) == s
  {
    StripSpec(s);
  }

  /** `def <name>(<params>):` yields the function `<name>` when the name has no `(`. */
  lemma DefLineYieldsName(name: string, params: string)
    requires '(' !in name
    ensures ScanLine("def " + name + "(" + params + "):") == Facts([ScannedFunction(name)], [], [])
  {
    var line := "def " + name + "(" + params + "):";
    StripNoSurroundingSpace(line);
    assert StartsWith(line, "def ");
    assert !StartsWith(line, "class ") by {
      assert line[0] == 'd';
    }
    assert line[4..] == name + ['('] + (params + "):");
    TakeUntilPast(name, '(', params + "):");
  }

  /** `class <name>(<bases>):` and `class <name>:` yield the class `<name>` when the name has no `(` or `:`. */
  lemma ClassLineYieldsName(name: string, bases: string)
    requires '(' !in name && ':' !in name
    ensures ScanLine("class " + name + "(" + bases + "):") == Facts([], [ScannedClass(name)], [])
    ensures ScanLine("class " + name + ":") == Facts([], [ScannedClass(name)], [])
  {
    var line := "class " + name + "(" + bases + "):";
    StripNoSurroundingSpace(line);
    assert StartsWith(line, "class ");
    assert !StartsWith(line, "def ") by {
      assert line[0] == 'c';
    }
    assert line[6..] == name + ['('] + (bases + "):");
    TakeUntilPast(name, '(', bases + "):");
    TakeUntilAll(name, ':');

    var bare := "class " + name + ":";
    StripNoSurroundingSpace(bare);
    assert StartsWith(bare, "class ");
    assert !StartsWith(bare, "def ") by {
      assert bare[0] == 'c';
    }
    assert bare[6..] == name + [':'];
    TakeUntilAll(name + [':'], '(');
    TakeUntilPast(name, ':', []);
    assert name + [':'] + [] == name + [':'];
  }

  lemma {:induction false} StripLeftIndent(indent: string, line: string)
    requires forall i :: 0 <= i < |indent| ==> IsSpace(indent[i])
    ensures StripLeft(indent + line) == StripLeft(line)
  {
    if indent == [] {
      assert indent + line == line;
    } else {
      assert (indent + line)[0] == indent[0];
      assert (indent + line)[1..] == indent[1..] + line;
      StripLeftIndent(indent[1..], line);
    }
  }

  /** Leading whitespace does not change what a line contributes: indented methods are found too. */
  lemma IndentationIgnored(indent: string, line: string)
    requires forall i :: 0 <= i < |indent| ==> IsSpace(indent[i])
    ensures ScanLine(indent + line) == ScanLine(line)
  {
    StripLeftIndent(indent, line);
  }

  /** A stripped line not starting with either keyword contributes nothing, `"def"` alone included. */
  lemma OtherLinesIgnored()
    ensures ScanLine("  return helper(x)") == Empty
    ensures ScanLine("def") == Empty
  {
    assert Strip("  return helper(x)") == "return helper(x)" by {
      assert StripLeft("  return helper(x)") == StripLeft(" return helper(x)") == "return helper(x)";
      StripNoSurroundingSpace("return helper(x)");
    }
    assert !StartsWith("return helper(x)", "def ") by {
      assert "return helper(x)"[0] == 'r';
    }
    assert !StartsWith("return helper(x)", "class ") by {
      assert "return helper(x)"[0] == 'r';
    }
    StripNoSurroundingSpace("def");
  }
}
