/**
 * `utils/display.ts`: renders an analysis result (any JSON-like value) as readable text.
 * Strings that look like JSON are parsed and rendered as the value they hold; arrays and
 * objects render part by part, skipping blank parts; object keys become labels.
 * `JSON.parse` is a function-valued parameter (`None` when it throws).
 */
module Display {
  import opened Wrappers
  import opened Text

  const PLACEHOLDER := "暂无可显示的分析结果。"

  /** A JavaScript value as `renderValue` tells them apart. A number carries its `String(n)`
      rendering; `JsOther` is a function, symbol or bigint. */
  datatype JsValue =
    | JsNull
    | JsUndefined
    | JsBool(b: bool)
    | JsNumber(shown: string)
    | JsString(s: string)
    | JsArray(items: seq<JsValue>)
    | JsObject(entries: seq<(string, JsValue)>)
    | JsOther

  // ---------------------------------------------------------------------------------------
  // Size, and the one fact about `JSON.parse` the renderer relies on

  function JsSize(v: JsValue): nat
    decreases v
  {
    match v
    case JsString(s) => 1 + |s|
    case JsArray(items) => 1 + ItemsSize(items)
    case JsObject(entries) => 1 + EntriesSize(entries)
    case _ => 1
  }

  function ItemsSize(items: seq<JsValue>): nat
    decreases items
  {
    if items == [] then 0 else JsSize(items[0]) + ItemsSize(items[1..])
  }

  function EntriesSize(entries: seq<(string, JsValue)>): nat
    decreases entries
  {
    if entries == [] then 0
    else
      var e := entries[0];
      assert e in entries && e.1 < e;
      1 + |e.0| + JsSize(e.1) + EntriesSize(entries[1..])
  }

  /** `JSON.parse` never yields a value larger than its text: every string in the result is
      spelled out, between quotes, in the text. */
  ghost predicate ShrinkingParse(parse: string -> Option<JsValue>) {
    forall t :: parse(t).Some? ==> JsSize(parse(t).value) <= |t|
  }

  // ---------------------------------------------------------------------------------------
  // String helpers

  /** No backslash is followed by an `n`. */
  ghost predicate NoEscapedNewline(s: string) {
    forall i, j :: 0 <= i < j < |s| && j == i + 1 ==> !(s[i] == '\\' && s[j] == 'n')
  }

  /** A piece of a text without backslash-n pairs has none either. */
  lemma NoEscapedNewlineInPiece(s: string, a: nat, b: nat)
    requires NoEscapedNewline(s) && a <= b <= |s|
    ensures NoEscapedNewline(s[a..b])
  {
    var t := s[a..b];
    forall i, j | 0 <= i < j < |t| && j == i + 1 ensures !(t[i] == '\\' && t[j] == 'n') {
      assert t[i] == s[a + i] && t[j] == s[a + j];
    }
  }

  /** `text.replace(/\\n/g, '\n')`: every backslash-n pair becomes a line break. */
  function UnescapeNewlines(s: string): string {
    if s == [] then []
    else if |s| >= 2 && s[0] == '\\' && s[1] == 'n' then "\n" + UnescapeNewlines(s[2..])
    else [s[0]] + UnescapeNewlines(s[1..])
  }

  /** No backslash-n pair is left after unescaping, and the result starts with an `n` exactly
      when the text does (a replaced pair starts with a line break instead). */
  lemma {:induction false} UnescapedHasNoEscapes(s: string)
    ensures NoEscapedNewline(UnescapeNewlines(s))
    ensures UnescapeNewlines(s) != [] ==> (UnescapeNewlines(s)[0] == 'n' <==> s[0] == 'n')
  {
    if s != [] {
      var pair := |s| >= 2 && s[0] == '\\' && s[1] == 'n';
      var k := if pair then 2 else 1;
      var rest := UnescapeNewlines(s[k..]);
      UnescapedHasNoEscapes(s[k..]);
      var r := UnescapeNewlines(s);
      assert r == [if pair then '\n' else s[0]] + rest;
      forall i, j | 0 <= i < j < |r| && j == i + 1 ensures !(r[i] == '\\' && r[j] == 'n') {
        if i > 0 {
          assert r[i] == rest[i - 1] && r[j] == rest[j - 1];
        }
      }
    }
  }

  /** A text without backslash-n pairs is left as it is. */
  lemma {:induction false} UnescapeWithoutEscapes(s: string)
    requires NoEscapedNewline(s)
    ensures UnescapeNewlines(s) == s
  {
    if s != [] {
      assert !(|s| >= 2 && s[0] == '\\' && s[1] == 'n');
      NoEscapedNewlineInPiece(s, 1, |s|);
      UnescapeWithoutEscapes(s[1..]);
      assert [s[0]] + s[1..] == s;
    }
  }

  /** Each backslash-n pair becomes one line break, and the text on either side is unescaped
      on its own: no pair straddles the one replaced. */
  lemma {:induction false} UnescapeAround(a: string, b: string)
    ensures UnescapeNewlines(a + "\\n" + b) == UnescapeNewlines(a) + "\n" + UnescapeNewlines(b)
    decreases |a|, 1
  {
    if a == [] {
      assert (a + "\\n" + b)[2..] == b;
    } else if |a| >= 2 && a[0] == '\\' && a[1] == 'n' {
      UnescapeAroundPair(a, b);
    } else {
      UnescapeAroundOther(a, b);
    }
  }

  /** The step of `UnescapeAround` when `a` starts with an escaped line break. */
  lemma {:induction false} UnescapeAroundPair(a: string, b: string)
    requires |a| >= 2 && a[0] == '\\' && a[1] == 'n'
    ensures UnescapeNewlines(a + "\\n" + b) == UnescapeNewlines(a) + "\n" + UnescapeNewlines(b)
    decreases |a|, 0
  {
    var s := a + "\\n" + b;
    assert s[0] == '\\' && s[1] == 'n';
    assert s[2..] == a[2..] + "\\n" + b;
    UnescapeAround(a[2..], b);
  }

  /** The step of `UnescapeAround` when `a` does not start with an escaped line break. */
  lemma {:induction false} UnescapeAroundOther(a: string, b: string)
    requires a != [] && !(|a| >= 2 && a[0] == '\\' && a[1] == 'n')
    ensures UnescapeNewlines(a + "\\n" + b) == UnescapeNewlines(a) + "\n" + UnescapeNewlines(b)
    decreases |a|, 0
  {
    var s := a + "\\n" + b;
    if |a| == 1 {
      assert s[0] == a[0] && s[1] == '\\';
      assert s[1..] == [] + "\\n" + b;
      assert a[1..] == [];
    } else {
      assert s[0] == a[0] && s[1] == a[1];
      assert s[1..] == a[1..] + "\\n" + b;
    }
    UnescapeAround(a[1..], b);
  }

  /** `formatMultilineContent(content)`: the text with its escaped line breaks restored,
      trimmed of white space at both ends. */
  function FormatMultilineContent(content: string): (r: string)
    ensures r == JsTrim(UnescapeNewlines(content))
    ensures r == [] || (!JsWhitespace(r[0]) && !JsWhitespace(r[|r| - 1]))
    ensures NoEscapedNewline(r)
  {
    var u := UnescapeNewlines(content);
    UnescapedHasNoEscapes(content);
    var r := JsTrim(u);
    var a := LeadingCount(u, JsWhitespace);
    NoEscapedNewlineInPiece(u, a, a + |r|);
    r
  }

  /** `isJsonLike(text)`: the trimmed text is wrapped in braces or brackets. */
  predicate IsJsonLike(text: string) {
    var t := JsTrim(text);
    |t| >= 2 && ((t[0] == '{' && t[|t| - 1] == '}') || (t[0] == '[' && t[|t| - 1] == ']'))
  }

  /** `s.split(c)`: the pieces between the occurrences of `c`; there is always one more piece
      than there are occurrences. */
  function Split(s: string, c: char): (parts: seq<string>)
    ensures |parts| >= 1
    ensures forall i :: 0 <= i < |parts| ==> Lacks(parts[i], c)
  {
    if s == [] then [""]
    else if s[0] == c then [""] + Split(s[1..], c)
    else
      var rest := Split(s[1..], c);
      [[s[0]] + rest[0]] + rest[1..]
  }

  /** `parts.join(sep)`. */
  function Join(parts: seq<string>, sep: string): string {
    if parts == [] then ""
    else if |parts| == 1 then parts[0]
    else parts[0] + sep + Join(parts[1..], sep)
  }

  /** Joining the pieces of a split gives the text back. */
  lemma {:induction false} JoinSplit(s: string, c: char)
    ensures Join(Split(s, c), [c]) == s
  {
    if s != [] {
      JoinSplit(s[1..], c);
      var rest := Split(s[1..], c);
      if s[0] != c && |rest| > 1 {
        assert Join(Split(s, c), [c]) == [s[0]] + rest[0] + [c] + Join(rest[1..], [c]);
        assert Join(rest, [c]) == rest[0] + [c] + Join(rest[1..], [c]);
      }
    }
  }

  /** Splitting the text a join produced gives the pieces back, when no piece holds the
      separator. */
  lemma {:induction false} SplitJoin(parts: seq<string>, c: char)
    requires |parts| >= 1 && forall i :: 0 <= i < |parts| ==> Lacks(parts[i], c)
    ensures Split(Join(parts, [c]), c) == parts
  {
    if |parts| == 1 {
      SplitLacking(parts[0], c);
    } else {
      SplitJoin(parts[1..], c);
      SplitAfterPiece(parts[0], Join(parts[1..], [c]), c);
    }
  }

  lemma {:induction false} SplitLacking(s: string, c: char)
    requires Lacks(s, c)
    ensures Split(s, c) == [s]
  {
    if s != [] {
      assert Lacks(s[1..], c) && s[0] != c;
      SplitLacking(s[1..], c);
      assert [s[0]] + s[1..] == s;
    }
  }

  lemma {:induction false} SplitAfterPiece(a: string, b: string, c: char)
    requires Lacks(a, c)
    ensures Split(a + [c] + b, c) == [a] + Split(b, c)
  {
    var s := a + [c] + b;
    if a != [] {
      assert Lacks(a[1..], c) && s[0] == a[0] != c;
      SplitAfterPiece(a[1..], b, c);
      assert s[1..] == a[1..] + [c] + b;
      assert [a[0]] + a[1..] == a;
    } else {
      assert s[0] == c && s[1..] == b;
    }
  }

  /** One line of `indentMultiline`: two spaces before a non-blank line. */
  function IndentLine(line: string): string {
    if JsTrim(line) != [] then "  " + line else line
  }

  function IndentLines(lines: seq<string>): (r: seq<string>)
    ensures |r| == |lines| && forall i :: 0 <= i < |lines| ==> r[i] == IndentLine(lines[i])
  {
    if lines == [] then [] else [IndentLine(lines[0])] + IndentLines(lines[1..])
  }

  /** `indentMultiline(value)`. */
  function IndentMultiline(value: string): string {
    Join(IndentLines(Split(value, '\n')), "\n")
  }

  /** Indenting keeps the lines of the text: the same number of lines, each non-blank line
      behind two spaces and each blank line as it was. */
  lemma IndentKeepsLines(value: string)
    ensures Split(IndentMultiline(value), '\n') == IndentLines(Split(value, '\n'))
    ensures |Split(IndentMultiline(value), '\n')| == |Split(value, '\n')|
  {
    var lines := IndentLines(Split(value, '\n'));
    forall i | 0 <= i < |lines| ensures Lacks(lines[i], '\n') {
      var l := Split(value, '\n')[i];
      assert lines[i] == l || lines[i] == "  " + l;
    }
    SplitJoin(lines, '\n');
  }

  // ---------------------------------------------------------------------------------------
  // Keys as labels

  /** `[_-]`. */
  predicate IsDash(c: char) {
    c == '_' || c == '-'
  }

  /** `\w`. */
  predicate IsWordChar(c: char) {
    'a' <= c <= 'z' || 'A' <= c <= 'Z' || '0' <= c <= '9' || c == '_'
  }

  /** What one character contributes to `s.replace(/[cls]+/g, ' ')`: itself when outside the
      class, a space when it starts a run of the class, nothing when it continues one. */
  function RunHead(c: char, cls: char -> bool, inRun: bool): string {
    if !cls(c) then [c] else if inRun then [] else [' ']
  }

  /** `s.replace(/[cls]+/g, ' ')`, scanned one character at a time: `inRun` says whether the
      character before `s` belonged to the class. */
  function CollapseFrom(s: string, cls: char -> bool, inRun: bool): string
    decreases |s|
  {
    if s == [] then [] else RunHead(s[0], cls, inRun) + CollapseFrom(s[1..], cls, cls(s[0]))
  }

  /** `s.replace(/[cls]+/g, ' ')`: each maximal run of the class becomes one space. */
  function CollapseRuns(s: string, cls: char -> bool): (r: string)
    ensures r == [] <==> s == []
    ensures r != [] && cls(' ') ==> (r[0] == ' ' <==> cls(s[0]))
  {
    CollapseFrom(s, cls, false)
  }

  /** Whether the scan is inside a run after reading `a`. */
  function EndsInRun(a: string, cls: char -> bool, inRun: bool): bool {
    if a == [] then inRun else cls(a[|a| - 1])
  }

  /** Collapsing a concatenation collapses each part, the second starting in the state the
      first left. */
  lemma {:induction false} CollapseAppend(a: string, b: string, cls: char -> bool, inRun: bool)
    ensures CollapseFrom(a + b, cls, inRun) == CollapseFrom(a, cls, inRun) + CollapseFrom(b, cls, EndsInRun(a, cls, inRun))
    decreases |a|
  {
    if a == [] {
      assert a + b == b;
    } else {
      var s := a + b;
      assert s[0] == a[0];
      assert s[1..] == a[1..] + b;
      var head := RunHead(a[0], cls, inRun);
      var left, right := CollapseFrom(a[1..], cls, cls(a[0])), CollapseFrom(b, cls, EndsInRun(a, cls, inRun));
      CollapseAppend(a[1..], b, cls, cls(a[0]));
      assert EndsInRun(a[1..], cls, cls(a[0])) == EndsInRun(a, cls, inRun);
      assert head + (left + right) == (head + left) + right;
    }
  }

  /** A text with no character of the class is left as it is. */
  lemma {:induction false} CollapseRunsOutsideClass(s: string, cls: char -> bool)
    requires forall i :: 0 <= i < |s| ==> !cls(s[i])
    ensures CollapseRuns(s, cls) == s
  {
    KeepOutsideClass(s, cls);
  }

  lemma {:induction false} KeepOutsideClass(s: string, cls: char -> bool)
    requires forall i :: 0 <= i < |s| ==> !cls(s[i])
    ensures CollapseFrom(s, cls, false) == s
    decreases |s|
  {
    if s != [] {
      assert forall i :: 0 <= i < |s[1..]| ==> s[1..][i] == s[i + 1];
      KeepOutsideClass(s[1..], cls);
      assert [s[0]] + s[1..] == s;
    }
  }

  /** The rest of a run that is already open leaves nothing. */
  lemma {:induction false} DropInsideRun(run: string, cls: char -> bool)
    requires AllIn(run, cls)
    ensures CollapseFrom(run, cls, true) == []
    decreases |run|
  {
    if run != [] {
      assert AllIn(run[1..], cls) by {
        assert forall i :: 0 <= i < |run[1..]| ==> run[1..][i] == run[i + 1];
      }
      DropInsideRun(run[1..], cls);
    }
  }

  /** What is left of the class is single spaces, every other character comes from the text,
      and no space standing for a run is followed by another character of the class. */
  ghost predicate CollapsedFrom(s: string, r: string, cls: char -> bool) {
    RunsCollapsed(r, cls) && CharsFrom(s, r, cls)
  }

  ghost predicate RunsCollapsed(r: string, cls: char -> bool) {
    (forall i :: 0 <= i < |r| && cls(r[i]) ==> r[i] == ' ')
    && (forall i, j :: 0 <= i < j < |r| && j == i + 1 && cls(' ') && r[i] == ' ' ==> !cls(r[j]))
  }

  ghost predicate CharsFrom(s: string, r: string, cls: char -> bool) {
    forall i :: 0 <= i < |r| && !cls(r[i]) && r[i] != ' ' ==> exists j :: 0 <= j < |s| && s[j] == r[i]
  }

  /** The collapsed text has no run of the class left. */
  lemma CollapseRunsShape(s: string, cls: char -> bool)
    ensures CollapsedFrom(s, CollapseRuns(s, cls), cls)
  {
    CollapseFromShape(s, cls, false);
    CollapseFromChars(s, cls, false);
  }

  lemma {:induction false} CollapseFromShape(s: string, cls: char -> bool, inRun: bool)
    ensures RunsCollapsed(CollapseFrom(s, cls, inRun), cls)
    ensures inRun && CollapseFrom(s, cls, inRun) != [] ==> !cls(CollapseFrom(s, cls, inRun)[0])
    decreases |s|
  {
    if s != [] {
      var rest := CollapseFrom(s[1..], cls, cls(s[0]));
      CollapseFromShape(s[1..], cls, cls(s[0]));
      var r := CollapseFrom(s, cls, inRun);
      var head := RunHead(s[0], cls, inRun);
      assert r == head + rest;
      forall i | 0 <= i < |r| && cls(r[i]) ensures r[i] == ' ' {
        if i >= |head| {
          assert r[i] == rest[i - |head|];
        }
      }
      forall i, j | 0 <= i < j < |r| && j == i + 1 && cls(' ') && r[i] == ' ' ensures !cls(r[j]) {
        if i >= |head| {
          assert r[i] == rest[i - |head|] && r[j] == rest[j - |head|];
        } else {
          assert r[j] == rest[0];
        }
      }
    }
  }

  lemma {:induction false} CollapseFromChars(s: string, cls: char -> bool, inRun: bool)
    ensures CharsFrom(s, CollapseFrom(s, cls, inRun), cls)
    decreases |s|
  {
    if s != [] {
      var rest := CollapseFrom(s[1..], cls, cls(s[0]));
      CollapseFromChars(s[1..], cls, cls(s[0]));
      var r := CollapseFrom(s, cls, inRun);
      var head := RunHead(s[0], cls, inRun);
      assert r == head + rest;
      forall i | 0 <= i < |r| && !cls(r[i]) && r[i] != ' '
        ensures exists j :: 0 <= j < |s| && s[j] == r[i]
      {
        if i < |head| {
          assert r[i] == s[0];
        } else {
          assert r[i] == rest[i - |head|];
          var j :| 0 <= j < |s[1..]| && s[1..][j] == rest[i - |head|];
          assert s[1 + j] == r[i];
        }
      }
    }
  }

  /** A maximal run of the class becomes exactly one space, and the text on either side is
      collapsed on its own. */
  lemma CollapseRunsAround(a: string, run: string, b: string, cls: char -> bool)
    requires run != [] && AllIn(run, cls)
    requires a == [] || !cls(a[|a| - 1])
    requires b == [] || !cls(b[0])
    ensures CollapseRuns(a + run + b, cls) == CollapseRuns(a, cls) + " " + CollapseRuns(b, cls)
  {
    CollapseAppend(a + run, b, cls, false);
    CollapseAppend(a, run, cls, false);
    assert EndsInRun(a + run, cls, false) by {
      assert (a + run)[|a + run| - 1] == run[|run| - 1];
    }
    assert CollapseFrom(run, cls, false) == " " by {
      assert AllIn(run[1..], cls) by {
        assert forall i :: 0 <= i < |run[1..]| ==> run[1..][i] == run[i + 1];
      }
      DropInsideRun(run[1..], cls);
    }
  }

  /** `s.replace(/\b\w/g, m => m.toUpperCase())`: the first character of every word. */
  function CapitalizeWords(s: string): (r: string)
    ensures |r| == |s|
    ensures forall i :: 0 <= i < |s| ==>
              r[i] == if IsWordChar(s[i]) && (i == 0 || !IsWordChar(s[i - 1])) then UpperChar(s[i]) else s[i]
  {
    seq(|s|, i requires 0 <= i < |s| =>
      if IsWordChar(s[i]) && (i == 0 || !IsWordChar(s[i - 1])) then UpperChar(s[i]) else s[i])
  }

  /** `prettifyKey(key)`. */
  function PrettifyKey(key: string): string {
    CapitalizeWords(JsTrim(CollapseRuns(CollapseRuns(key, IsDash), JsWhitespace)))
  }

  /** No dashes, and white space only as single spaces. */
  ghost predicate Collapsed(b: string) {
    (forall i :: 0 <= i < |b| ==> !IsDash(b[i]))
    && (forall i :: 0 <= i < |b| && JsWhitespace(b[i]) ==> b[i] == ' ')
    && (forall i, j :: 0 <= i < j < |b| && j == i + 1 && b[i] == ' ' ==> b[j] != ' ')
  }

  /** Collapsed, with no white space at either end. */
  ghost predicate CollapsedAndTrimmed(t: string) {
    Collapsed(t) && (t == [] || (!JsWhitespace(t[0]) && !JsWhitespace(t[|t| - 1])))
  }

  /** The shape of a label: collapsed and trimmed, and every word starting with a capital
      when it starts with a letter. */
  ghost predicate LabelShaped(p: string) {
    CollapsedAndTrimmed(p)
    && forall i :: 0 <= i < |p| && (i == 0 || p[i - 1] == ' ') ==> !('a' <= p[i] <= 'z')
  }

  /** The text a label is cut from has no dashes and only single spaces. */
  lemma CollapsedKeyShape(key: string)
    ensures Collapsed(CollapseRuns(CollapseRuns(key, IsDash), JsWhitespace))
  {
    CollapseRunsShape(key, IsDash);
    CollapseRunsShape(CollapseRuns(key, IsDash), JsWhitespace);
  }

  /** Trimming keeps the shape of a collapsed text and removes the spaces at its ends. */
  lemma TrimmedShape(b: string)
    requires Collapsed(b)
    ensures CollapsedAndTrimmed(JsTrim(b))
  {
    var t := JsTrim(b);
    var lead := LeadingCount(b, JsWhitespace);
    assert forall i :: 0 <= i < |t| ==> t[i] == b[lead + i];
  }

  /** `p` is `t` with some lower-case letters raised to capitals and nothing else changed. */
  ghost predicate LettersOnlyRaised(t: string, p: string) {
    |p| == |t|
    && forall i :: 0 <= i < |t| ==> p[i] == t[i] || ('a' <= t[i] <= 'z' && 'A' <= p[i] <= 'Z')
  }

  /** Raising letters leaves dashes and white space where they were. */
  lemma RaisedKeepsShape(t: string, p: string)
    requires CollapsedAndTrimmed(t) && LettersOnlyRaised(t, p)
    ensures CollapsedAndTrimmed(p)
  {
    assert forall i :: 0 <= i < |t| ==> (p[i] == ' ' <==> t[i] == ' ');
    assert forall i :: 0 <= i < |t| ==> (JsWhitespace(p[i]) <==> JsWhitespace(t[i]));
    assert forall i :: 0 <= i < |t| ==> (IsDash(p[i]) <==> IsDash(t[i]));
  }

  /** Capitalizing changes only lower-case letters at word starts, so it keeps the shape of
      the text around them. */
  lemma CapitalizedShape(t: string)
    requires CollapsedAndTrimmed(t)
    ensures LabelShaped(CapitalizeWords(t))
  {
    var p := CapitalizeWords(t);
    assert LettersOnlyRaised(t, p);
    RaisedKeepsShape(t, p);
    forall i | 0 <= i < |p| && (i == 0 || p[i - 1] == ' ') ensures !('a' <= p[i] <= 'z') {
      if i > 0 {
        assert t[i - 1] == ' ';
      }
    }
  }

  /** A label has no underscores or dashes, no white space at either end, only single spaces
      between words, and every word starts with a capital when it starts with a letter. */
  lemma PrettifiedKeyShape(key: string)
    ensures LabelShaped(PrettifyKey(key))
  {
    var b := CollapseRuns(CollapseRuns(key, IsDash), JsWhitespace);
    CollapsedKeyShape(key);
    TrimmedShape(b);
    CapitalizedShape(JsTrim(b));
  }

  /** The characters a label may add, drop or merge: dashes, underscores and white space. */
  predicate IsGap(c: char) {
    IsDash(c) || JsWhitespace(c)
  }

  /** The text with every dash, underscore and white-space character removed. */
  function Squeeze(s: string): string {
    if s == [] then []
    else if IsGap(s[0]) then Squeeze(s[1..])
    else [s[0]] + Squeeze(s[1..])
  }

  lemma {:induction false} SqueezeAppend(a: string, b: string)
    ensures Squeeze(a + b) == Squeeze(a) + Squeeze(b)
    decreases |a|
  {
    if a == [] {
      assert a + b == b;
    } else {
      assert (a + b)[0] == a[0] && (a + b)[1..] == a[1..] + b;
      SqueezeAppend(a[1..], b);
    }
  }

  lemma {:induction false} SqueezeGaps(s: string)
    requires AllIn(s, JsWhitespace)
    ensures Squeeze(s) == []
    decreases |s|
  {
    if s != [] {
      assert AllIn(s[1..], JsWhitespace) by {
        assert forall i :: 0 <= i < |s[1..]| ==> s[1..][i] == s[i + 1];
      }
      SqueezeGaps(s[1..]);
    }
  }

  /** Collapsing runs of gap characters into spaces leaves the squeezed text as it was. */
  lemma {:induction false} SqueezeCollapse(s: string, cls: char -> bool, inRun: bool)
    requires forall c :: cls(c) ==> IsGap(c)
    ensures Squeeze(CollapseFrom(s, cls, inRun)) == Squeeze(s)
    decreases |s|
  {
    if s != [] {
      var rest := CollapseFrom(s[1..], cls, cls(s[0]));
      SqueezeCollapse(s[1..], cls, cls(s[0]));
      var head := RunHead(s[0], cls, inRun);
      SqueezeAppend(head, rest);
      assert Squeeze(head) == Squeeze([s[0]]) by {
        SqueezeChar(s[0]);
        SqueezeChar(' ');
        assert head == [] ==> Squeeze(head) == [];
      }
      assert Squeeze(s) == Squeeze([s[0]]) + Squeeze(s[1..]) by {
        SqueezeChar(s[0]);
      }
    }
  }

  lemma SqueezeChar(c: char)
    ensures Squeeze([c]) == if IsGap(c) then [] else [c]
  {
    assert [c][1..] == [];
  }

  /** Trimming white space leaves the squeezed text as it was. */
  lemma SqueezeTrim(s: string)
    ensures Squeeze(JsTrim(s)) == Squeeze(s)
  {
    var r := JsTrim(s);
    var a := LeadingCount(s, JsWhitespace);
    assert s == s[..a] + r + s[a + |r|..];
    SqueezeAppend(s[..a] + r, s[a + |r|..]);
    SqueezeAppend(s[..a], r);
    SqueezeGaps(s[..a]);
    SqueezeGaps(s[a + |r|..]);
  }

  /** Texts that agree up to case, character by character, with gaps in the same places,
      squeeze to texts that agree up to case. */
  lemma {:induction false} SqueezeIgnoringCase(p: string, t: string)
    requires |p| == |t|
    requires forall i :: 0 <= i < |t| ==> LowerChar(p[i]) == LowerChar(t[i]) && (IsGap(p[i]) <==> IsGap(t[i]))
    ensures EqualsIgnoreCase(Squeeze(p), Squeeze(t))
    decreases |t|
  {
    if t != [] {
      assert forall i :: 0 <= i < |t[1..]| ==> p[1..][i] == p[i + 1] && t[1..][i] == t[i + 1];
      SqueezeIgnoringCase(p[1..], t[1..]);
      if !IsGap(t[0]) {
        var sp, st := Squeeze(p[1..]), Squeeze(t[1..]);
        assert forall i :: 1 <= i <= |st| ==> ([p[0]] + sp)[i] == sp[i - 1] && ([t[0]] + st)[i] == st[i - 1];
      }
    }
  }

  /** Capitalizing words changes only the case of letters. */
  lemma CapitalizedSqueeze(t: string)
    ensures EqualsIgnoreCase(Squeeze(CapitalizeWords(t)), Squeeze(t))
  {
    var p := CapitalizeWords(t);
    forall i | 0 <= i < |t| ensures LowerChar(p[i]) == LowerChar(t[i]) && (IsGap(p[i]) <==> IsGap(t[i])) {
      assert p[i] == t[i] || ('a' <= t[i] <= 'z' && p[i] == UpperChar(t[i]));
    }
    SqueezeIgnoringCase(p, t);
  }

  /** Lower-casing two texts that agree up to case gives the same text. */
  lemma LowerWhenEqualIgnoringCase(x: string, y: string)
    requires EqualsIgnoreCase(x, y)
    ensures ToLower(x) == ToLower(y)
  {
  }

  /** A label spells its key: read without case, white space, underscores or dashes, the two
      are the same text. */
  lemma PrettifiedKeySpellsKey(key: string)
    ensures EqualsIgnoreCase(Squeeze(PrettifyKey(key)), Squeeze(key))
    ensures ToLower(Squeeze(PrettifyKey(key))) == ToLower(Squeeze(key))
  {
    var d := CollapseRuns(key, IsDash);
    var b := CollapseRuns(d, JsWhitespace);
    var t := JsTrim(b);
    assert Squeeze(t) == Squeeze(key) by {
      SqueezeCollapse(key, IsDash, false);
      SqueezeCollapse(d, JsWhitespace, false);
      SqueezeTrim(b);
    }
    CapitalizedSqueeze(t);
    LowerWhenEqualIgnoringCase(Squeeze(PrettifyKey(key)), Squeeze(key));
  }

  // ---------------------------------------------------------------------------------------
  // Rendering

  /** Entry `i` is the first entry named `text`. */
  ghost predicate FirstTextAt(entries: seq<(string, JsValue)>, i: int)
    requires 0 <= i < |entries|
  {
    entries[i].0 == "text" && forall j :: 0 <= j < i ==> entries[j].0 != "text"
  }

  /** The value of `record.text` when it is a string: found exactly when the first entry named
      `text` holds a string, and then it is that string. */
  function TextField(entries: seq<(string, JsValue)>): (r: Option<string>)
    ensures r.Some? <==> exists i :: 0 <= i < |entries| && FirstTextAt(entries, i) && entries[i].1.JsString?
    ensures forall i :: 0 <= i < |entries| && FirstTextAt(entries, i) && entries[i].1.JsString? ==>
              r == Some(entries[i].1.s)
  {
    if entries == [] then None
    else if entries[0].0 == "text" then
      assert FirstTextAt(entries, 0);
      (if entries[0].1.JsString? then Some(entries[0].1.s) else None)
    else
      var r := TextField(entries[1..]);
      assert forall i :: 1 <= i < |entries| ==> entries[1..][i - 1] == entries[i];
      assert forall i :: 1 <= i < |entries| ==> (FirstTextAt(entries, i) <==> FirstTextAt(entries[1..], i - 1));
      r
  }

  /** `.filter(item => item.trim().length > 0)`. */
  function NonBlank(parts: seq<string>): (r: seq<string>)
    ensures forall i :: 0 <= i < |r| ==> JsTrim(r[i]) != []
    ensures |r| <= |parts|
  {
    if parts == [] then []
    else if JsTrim(parts[0]) != [] then [parts[0]] + NonBlank(parts[1..])
    else NonBlank(parts[1..])
  }

  /** Filtering a concatenation filters each part, keeping the order. */
  lemma {:induction false} NonBlankAppend(a: seq<string>, b: seq<string>)
    ensures NonBlank(a + b) == NonBlank(a) + NonBlank(b)
    decreases |a|
  {
    if a == [] {
      assert a + b == b;
    } else {
      assert (a + b)[0] == a[0] && (a + b)[1..] == a[1..] + b;
      NonBlankAppend(a[1..], b);
    }
  }

  /** A single part is kept exactly when it is not blank. */
  lemma NonBlankSingle(x: string)
    ensures NonBlank([x]) == if JsTrim(x) != [] then [x] else []
  {
    assert [x][1..] == [];
  }

  /** `renderValue(value)`. */
  function Render(v: JsValue, parse: string -> Option<JsValue>): string
    requires ShrinkingParse(parse)
    decreases JsSize(v), 0
  {
    match v
    case JsNull => ""
    case JsUndefined => ""
    case JsString(s) =>
      var trimmed := JsTrim(s);
      if trimmed != [] && IsJsonLike(trimmed) then
        (match parse(trimmed)
         case Some(parsed) => Render(parsed, parse)
         case None => FormatMultilineContent(s))
      else FormatMultilineContent(s)
    case JsBool(b) => if b then "true" else "false"
    case JsNumber(shown) => shown
    case JsArray(items) => Join(NonBlank(RenderItems(items, parse)), "\n\n")
    case JsObject(entries) =>
      (match TextField(entries)
       case Some(text) => FormatMultilineContent(text)
       case None => Join(NonBlank(RenderEntries(entries, parse)), "\n\n"))
    case JsOther => ""
  }

  /** `value.map(item => renderValue(item))`. */
  function RenderItems(items: seq<JsValue>, parse: string -> Option<JsValue>): (r: seq<string>)
    requires ShrinkingParse(parse)
    ensures |r| == |items|
    decreases ItemsSize(items), 1
  {
    if items == [] then [] else [Render(items[0], parse)] + RenderItems(items[1..], parse)
  }

  /** `Object.entries(record).map(([key, val]) => formatEntry(key, val))`. */
  function RenderEntries(entries: seq<(string, JsValue)>, parse: string -> Option<JsValue>): (r: seq<string>)
    requires ShrinkingParse(parse)
    ensures |r| == |entries|
    decreases EntriesSize(entries), 2
  {
    if entries == [] then []
    else [FormatEntry(entries[0].0, entries[0].1, parse)] + RenderEntries(entries[1..], parse)
  }

  /** `formatEntry(key, value)`: nothing for an empty rendering; a label on its own line above
      the indented rendering when that spans lines; otherwise label and rendering on one line. */
  function FormatEntry(key: string, v: JsValue, parse: string -> Option<JsValue>): (r: string)
    requires ShrinkingParse(parse)
    decreases JsSize(v), 1
    ensures Render(v, parse) == [] ==> r == []
    ensures Render(v, parse) != [] && Lacks(Render(v, parse), '\n') ==>
              r == PrettifyKey(key) + ": " + Render(v, parse)
    ensures Render(v, parse) != [] && !Lacks(Render(v, parse), '\n') ==>
              r == PrettifyKey(key) + ":\n" + IndentMultiline(Render(v, parse))
  {
    var rendered := Render(v, parse);
    if rendered == [] then []
    else if !Lacks(rendered, '\n') then PrettifyKey(key) + ":\n" + IndentMultiline(rendered)
    else PrettifyKey(key) + ": " + rendered
  }

  /** `toReadableText(value)`: the rendering, or the placeholder when the rendering is empty.
      The text shown is never empty. */
  function ToReadableText(v: JsValue, parse: string -> Option<JsValue>): (r: string)
    requires ShrinkingParse(parse)
    ensures r != []
    ensures r == PLACEHOLDER <==> Render(v, parse) == [] || Render(v, parse) == PLACEHOLDER
    ensures Render(v, parse) == [] ==> r == PLACEHOLDER
    ensures Render(v, parse) != [] ==> r == Render(v, parse)
  {
    var result := Render(v, parse);
    if result != [] then result else PLACEHOLDER
  }

  /** `null` and `undefined` render as nothing, booleans and numbers as `String(value)`. */
  lemma ScalarsRender(parse: string -> Option<JsValue>, b: bool, shown: string)
    requires ShrinkingParse(parse)
    ensures Render(JsNull, parse) == [] && Render(JsUndefined, parse) == []
    ensures Render(JsBool(b), parse) == (if b then "true" else "false")
    ensures Render(JsNumber(shown), parse) == shown
  {
  }

  /** A string holding JSON renders as the value it holds; any other string is shown with its
      escaped line breaks restored, trimmed. */
  lemma StringsRender(s: string, parse: string -> Option<JsValue>)
    requires ShrinkingParse(parse)
    ensures IsJsonLike(JsTrim(s)) && parse(JsTrim(s)).Some? ==>
              Render(JsString(s), parse) == Render(parse(JsTrim(s)).value, parse)
    ensures !IsJsonLike(JsTrim(s)) || parse(JsTrim(s)).None? ==>
              Render(JsString(s), parse) == FormatMultilineContent(s)
  {
    if IsJsonLike(JsTrim(s)) {
      assert JsTrim(s) != [];
    }
  }

  /** An object with a string `text` field renders as that field alone. */
  lemma TextFieldRendersAlone(entries: seq<(string, JsValue)>, parse: string -> Option<JsValue>)
    requires ShrinkingParse(parse) && TextField(entries).Some?
    ensures Render(JsObject(entries), parse) == FormatMultilineContent(TextField(entries).value)
  {
  }

  /** Every part is blank. */
  predicate AllBlank(parts: seq<string>) {
    forall i :: 0 <= i < |parts| ==> JsTrim(parts[i]) == []
  }

  /** Nothing is left after dropping the blank parts exactly when every part is blank. */
  lemma {:induction false} NonBlankEmptyIff(parts: seq<string>)
    ensures NonBlank(parts) == [] <==> AllBlank(parts)
  {
    if parts != [] {
      NonBlankEmptyIff(parts[1..]);
      assert forall i :: 1 <= i < |parts| ==> parts[i] == parts[1..][i - 1];
    }
  }

  /** A join of non-empty parts is empty only when there are no parts. */
  lemma JoinEmptyIff(parts: seq<string>, sep: string)
    requires forall i :: 0 <= i < |parts| ==> parts[i] != []
    ensures Join(parts, sep) == [] <==> parts == []
  {
    if |parts| >= 2 {
      assert |Join(parts, sep)| >= |parts[0]|;
    }
  }

  /** The blank-dropping join is empty exactly when every part is blank. */
  lemma JoinedBlankIff(parts: seq<string>)
    ensures Join(NonBlank(parts), "\n\n") == [] <==> AllBlank(parts)
  {
    NonBlankEmptyIff(parts);
    var kept := NonBlank(parts);
    forall i | 0 <= i < |kept| ensures kept[i] != [] {
      assert JsTrim(kept[i]) != [];
    }
    JoinEmptyIff(kept, "\n\n");
  }

  /** An array renders as nothing exactly when every element renders blank. */
  lemma ArrayBlankIff(items: seq<JsValue>, parse: string -> Option<JsValue>)
    requires ShrinkingParse(parse)
    ensures Render(JsArray(items), parse) == [] <==> AllBlank(RenderItems(items, parse))
  {
    var parts := RenderItems(items, parse);
    assert Render(JsArray(items), parse) == Join(NonBlank(parts), "\n\n");
    JoinedBlankIff(parts);
  }

  /** An object without a `text` field renders as nothing exactly when every entry renders
      blank. */
  lemma ObjectBlankIff(entries: seq<(string, JsValue)>, parse: string -> Option<JsValue>)
    requires ShrinkingParse(parse) && TextField(entries).None?
    ensures Render(JsObject(entries), parse) == [] <==> AllBlank(RenderEntries(entries, parse))
  {
    var parts := RenderEntries(entries, parse);
    assert Render(JsObject(entries), parse) == Join(NonBlank(parts), "\n\n");
    JoinedBlankIff(parts);
  }

  /** A one-element array renders as its element when that is not blank. */
  lemma SingletonArrayRendersElement(x: JsValue, parse: string -> Option<JsValue>)
    requires ShrinkingParse(parse) && JsTrim(Render(x, parse)) != []
    ensures Render(JsArray([x]), parse) == Render(x, parse)
  {
    assert RenderItems([x], parse) == [Render(x, parse)];
    assert NonBlank([Render(x, parse)]) == [Render(x, parse)];
  }
}
