/** Schema inference from devicetree source text in lopper/schema.py:
    comment stripping of a source line, the value-based property type
    guess, cell grouping, name heuristics, node path patterns and the
    in-place schema dictionary update. */
module Schema {
  import opened Common
  import Base

  // ------------------------------------------------------------ strings

  /** Python's `s.find(pat)`, None standing for -1. */
  function Find(s: string, pat: string): (r: Option<nat>)
    ensures r.Some? ==> r.value + |pat| <= |s| && s[r.value..r.value + |pat|] == pat
    ensures r.Some? <==> Contains(s, pat)
    decreases |s|
  {
    if StartsWith(s, pat) then Some(0)
    else if |s| == 0 then None
    else match Find(s[1..], pat)
      case None => None
      case Some(k) => Some(k + 1)
  }

  lemma {:induction false} FindAbsent(s: string, pat: string)
    requires |pat| > 0 && forall k :: 0 <= k < |s| ==> s[k] != pat[0]
    ensures Find(s, pat) == None
    decreases |s|
  {
    assert !StartsWith(s, pat) by {
      if |pat| <= |s| {
        assert s[..|pat|][0] == s[0];
      }
    }
    if |s| > 0 {
      FindAbsent(s[1..], pat);
    }
  }

  lemma FindSkip(s: string, pat: string, k: nat)
    requires |s| > 0 && |pat| >= 2 && (s[0] != pat[0] || (|s| > 1 && s[1] != pat[1]))
    requires Find(s[1..], pat) == Some(k)
    ensures Find(s, pat) == Some(k + 1)
  {
    assert !StartsWith(s, pat) by {
      if |pat| <= |s| {
        assert s[..|pat|][0] == s[0] && s[..|pat|][1] == s[1];
      }
    }
  }

  /** Python's `s.strip()` never makes a string longer. */
  lemma {:induction false} StripWsShorter(s: string)
    ensures |Base.StripWs(s)| <= |s|
    decreases |s|
  {
    if |s| > 0 && IsSpace(s[0]) {
      StripWsShorter(s[1..]);
    } else if |s| > 0 && IsSpace(s[|s| - 1]) {
      StripWsShorter(s[..|s| - 1]);
    }
  }

  // ------------------------------------------------------------ comments

  /** The scanner state of `strip_dts_comments`: inside a string
      literal, inside a character literal, right after a backslash. */
  datatype ScanState = ScanState(inStr: bool, inChr: bool, esc: bool)

  const START := ScanState(false, false, false)

  /** A character that reaches the comment checks: neither escaped, nor a
      backslash, nor a quote that toggles a literal. */
  predicate Ordinary(c: char, st: ScanState)
  {
    !st.esc && c != '\\' && !(c == '"' && !st.inChr) && !(c == '\'' && !st.inStr)
  }

  /** The state after character c. */
  function Next(c: char, st: ScanState): ScanState
  {
    if st.esc then st.(esc := false)
    else if c == '\\' then st.(esc := true)
    else if c == '"' && !st.inChr then st.(inStr := !st.inStr)
    else if c == '\'' && !st.inStr then st.(inChr := !st.inChr)
    else st
  }

  /** A "//" at position i outside string and character literals. */
  predicate Stops(line: string, i: nat, st: ScanState)
    requires i < |line|
  {
    Ordinary(line[i], st) && !st.inStr && !st.inChr && i + 1 < |line| && line[i..i + 2] == "//"
  }

  /** The characters `strip_dts_comments` keeps from position i on: every
      character up to the first "//" outside string and character literals. */
  function ScanFrom(line: string, i: nat, st: ScanState): string
    requires i <= |line|
    decreases |line| - i
  {
    if i == |line| || Stops(line, i, st) then []
    else [line[i]] + ScanFrom(line, i + 1, Next(line[i], st))
  }

  /** The line once every block comment is cut out: while a comment
      opener occurs and the first closer ends after it, the text from the
      opener through that closer is removed and the rest stripped. */
  function RemoveBlocks(line: string): (r: string)
    ensures |r| <= |line|
    ensures Find(r, "/*").None? || Find(r, "*/").None? || Find(r, "*/").value + 2 <= Find(r, "/*").value
    decreases |line|
  {
    match (Find(line, "/*"), Find(line, "*/"))
    case (Some(start), Some(k)) =>
      if k + 2 > start then
        var cut := line[..start] + line[k + 2..];
        StripWsShorter(cut);
        RemoveBlocks(Base.StripWs(cut))
      else line
    case _ => line
  }

  /** What `strip_dts_comments` is meant to return: the line without its
      block comments and without a trailing "//" comment that lies outside
      string and character literals, stripped. */
  function Stripped(line: string): string
  {
    Base.StripWs(ScanFrom(RemoveBlocks(line), 0, START))
  }

  /** `strip_dts_comments` with the block comments cut out before the
      character scan (the corrected form of the loop). */
  method StripDtsComments(line: string) returns (r: string)
    ensures r == Stripped(line)
  {
    var l := RemoveBlockComments(line);
    var kept := ScanLine(l);
    r := Base.StripWs(kept);
  }

  method RemoveBlockComments(line: string) returns (l: string)
    ensures l == RemoveBlocks(line)
  {
    l := line;
    var start := Find(l, "/*");
    var close := Find(l, "*/");
    while start.Some? && close.Some? && close.value + 2 > start.value
      invariant RemoveBlocks(l) == RemoveBlocks(line)
      invariant start == Find(l, "/*") && close == Find(l, "*/")
      decreases |l|
    {
      var cut := l[..start.value] + l[close.value + 2..];
      StripWsShorter(cut);
      l := Base.StripWs(cut);
      start := Find(l, "/*");
      close := Find(l, "*/");
    }
  }

  /** The character loop of `strip_dts_comments`. */
  method ScanLine(l: string) returns (result: string)
    ensures result == ScanFrom(l, 0, START)
  {
    var inString, inChar, escaped := false, false, false;
    result := [];
    var i: nat := 0;
    while i < |l|
      invariant i <= |l|
      invariant result + ScanFrom(l, i, ScanState(inString, inChar, escaped)) == ScanFrom(l, 0, START)
      decreases |l| - i
    {
      var c := l[i];
      ghost var st := ScanState(inString, inChar, escaped);
      if escaped {
        result := result + [c];
        escaped := false;
      } else if c == '\\' {
        escaped := true;
        result := result + [c];
      } else if c == '"' && !inChar {
        inString := !inString;
        result := result + [c];
      } else if c == '\'' && !inString {
        inChar := !inChar;
        result := result + [c];
      } else if !inString && !inChar && i + 1 < |l| && l[i..i + 2] == "//" {
        break;
      } else {
        result := result + [c];
      }
      assert ScanState(inString, inChar, escaped) == Next(c, st);
      ScanStep(l, i, st, result[..|result| - 1]);
      i := i + 1;
    }
  }

  lemma ScanStep(l: string, i: nat, st: ScanState, done: string)
    requires i < |l| && !Stops(l, i, st)
    ensures done + [l[i]] + ScanFrom(l, i + 1, Next(l[i], st)) == done + ScanFrom(l, i, st)
  {
  }

  /** `strip_dts_comments` as written: the block comment is cut out of
      `line` inside the loop, at every ordinary character while both a
      comment opener and a closer occur, and the scan goes on at the next
      index of the shortened line. The loop need not end (a closer before
      the opener makes the line grow), so fuel bounds the iterations and
      None means it ran out. */
  function AsWrittenFrom(line: string, i: nat, st: ScanState, fuel: nat): Option<string>
    decreases fuel
  {
    if i >= |line| then Some([])
    else if fuel == 0 then None
    else if Stops(line, i, st) then Some([])
    else
      var next :=
        if !Ordinary(line[i], st) then line
        else match (Find(line, "/*"), Find(line, "*/"))
          case (Some(start), Some(k)) => Base.StripWs(line[..start] + line[k + 2..])
          case _ => line;
      Prepend(line[i], AsWrittenFrom(next, i + 1, Next(line[i], st), fuel - 1))
  }

  function Prepend(c: char, r: Option<string>): Option<string>
  {
    match r
    case None => None
    case Some(t) => Some([c] + t)
  }

  function StripAsWritten(line: string, fuel: nat): Option<string>
  {
    match AsWrittenFrom(line, 0, START, fuel)
    case None => None
    case Some(t) => Some(Base.StripWs(t))
  }

  lemma {:induction false} AsWrittenScans(line: string, i: nat, st: ScanState, fuel: nat)
    requires i <= |line| && fuel >= |line| - i
    requires Find(line, "/*").None? || Find(line, "*/").None?
    ensures AsWrittenFrom(line, i, st, fuel) == Some(ScanFrom(line, i, st))
    decreases |line| - i
  {
    if i < |line| && !Stops(line, i, st) {
      AsWrittenScans(line, i + 1, Next(line[i], st), fuel - 1);
    }
  }

  /** On a line that lacks a comment opener or closer the loop never rewrites the line,
      and the code as written returns the intended result. */
  lemma AsWrittenAgrees(line: string, fuel: nat)
    requires fuel >= |line|
    requires !(Contains(line, "/*") && Contains(line, "*/"))
    ensures StripAsWritten(line, fuel) == Some(Stripped(line))
  {
    AsWrittenScans(line, 0, START, fuel);
  }

  /** A line holding only a block comment: the code as written keeps the
      '/' read before the line was cut down to nothing, while the comment
      should leave an empty line behind. */
  lemma BlockCommentLine()
    ensures StripAsWritten("/* x */", 8) == Some("/")
    ensures Stripped("/* x */") == ""
  {
    var line := "/* x */";
    AsWrittenBlockLine(line);
    assert Base.StripWs("/") == "/";
    RemovedBlockLine(line);
  }

  lemma RemovedBlockLine(line: string)
    requires line == "/* x */"
    ensures RemoveBlocks(line) == ""
  {
    BlockFinds(line);
    assert line[..0] + line[7..] == "";
    assert Base.StripWs("") == "";
  }

  lemma BlockFinds(line: string)
    requires line == "/* x */"
    ensures Find(line, "/*") == Some(0) && Find(line, "*/") == Some(5)
  {
    assert Find("*/", "*/") == Some(0);
    FindSkip(" */", "*/", 0);
    FindSkip("x */", "*/", 1);
    FindSkip(" x */", "*/", 2);
    FindSkip("* x */", "*/", 3);
    FindSkip(line, "*/", 4);
  }

  lemma AsWrittenBlockLine(line: string)
    requires line == "/* x */"
    ensures AsWrittenFrom(line, 0, START, 8) == Some("/")
  {
    BlockFinds(line);
    assert line[0..2] == "/*";
    assert !Stops(line, 0, START) && Ordinary(line[0], START);
    assert line[..0] + line[5 + 2..] == "";
    assert Base.StripWs("") == "";
    assert AsWrittenFrom("", 1, Next('/', START), 7) == Some([]);
    assert [line[0]] + "" == "/";
  }

  lemma {:induction false} ScanNoSlash(line: string, i: nat, st: ScanState)
    requires i <= |line|
    requires forall k :: i <= k < |line| ==> line[k] != '/'
    ensures ScanFrom(line, i, st) == line[i..]
    decreases |line| - i
  {
    if i < |line| {
      ScanNoSlash(line, i + 1, Next(line[i], st));
      assert line[i..] == [line[i]] + line[i + 1..];
    }
  }

  /** A line without any '/' holds no comment: it is only stripped. */
  lemma StrippedNoSlash(line: string)
    requires forall k :: 0 <= k < |line| ==> line[k] != '/'
    ensures Stripped(line) == Base.StripWs(line)
  {
    FindAbsent(line, "/*");
    ScanNoSlash(line, 0, START);
  }

  /** Neither a quote, a backslash nor a '/'. */
  predicate Plain(c: char)
  {
    c != '"' && c != '\'' && c != '\\' && c != '/'
  }

  lemma {:induction false} ScanPlain(line: string, i: nat, j: nat)
    requires i <= j <= |line|
    requires forall k :: i <= k < j ==> Plain(line[k])
    ensures ScanFrom(line, i, START) == line[i..j] + ScanFrom(line, j, START)
    decreases j - i
  {
    if i < j {
      ScanPlain(line, i + 1, j);
      assert line[i..j] == [line[i]] + line[i + 1..j];
    }
  }

  const IN_STRING := ScanState(true, false, false)

  lemma {:induction false} ScanInString(line: string, i: nat, j: nat)
    requires i <= j <= |line|
    requires forall k :: i <= k < j ==> line[k] != '"' && line[k] != '\\'
    ensures ScanFrom(line, i, IN_STRING) == line[i..j] + ScanFrom(line, j, IN_STRING)
    decreases j - i
  {
    if i < j {
      ScanInString(line, i + 1, j);
      assert line[i..j] == [line[i]] + line[i + 1..j];
    }
  }

  /** A "//" after plain text starts a comment that is dropped. */
  lemma CutsLineComment(code: string, note: string)
    requires forall k :: 0 <= k < |code| ==> Plain(code[k])
    requires !Contains(code + "//" + note, "/*")
    ensures Stripped(code + "//" + note) == Base.StripWs(code)
  {
    var line := code + "//" + note;
    assert Find(line, "/*") == None;
    assert RemoveBlocks(line) == line;
    ScanPlain(line, 0, |code|);
    assert line[0..|code|] == code;
    assert line[|code|..|code| + 2] == "//";
    assert ScanFrom(line, |code|, START) == [];
    assert ScanFrom(line, 0, START) == code;
  }

  /** A "//" inside a string literal is kept. */
  lemma KeepsSlashesInString(code: string, text: string, line: string)
    requires forall k :: 0 <= k < |code| ==> Plain(code[k])
    requires forall k :: 0 <= k < |text| ==> text[k] != '"' && text[k] != '\\'
    requires line == code + "\"" + text + "\""
    requires !Contains(line, "/*")
    ensures Stripped(line) == Base.StripWs(line)
  {
    var n := |code|;
    var m := n + 1 + |text|;
    assert Find(line, "/*") == None;
    assert RemoveBlocks(line) == line;
    ScanPlain(line, 0, n);
    assert line[n] == '"';
    assert ScanFrom(line, n, START) == ['"'] + ScanFrom(line, n + 1, IN_STRING);
    ScanInString(line, n + 1, m);
    assert line[m] == '"';
    assert ScanFrom(line, m, IN_STRING) == ['"'];
    assert line[0..n] == code;
    assert line[n + 1..m] == text;
    QuotedParts(code, text, line);
  }

  lemma QuotedParts(code: string, text: string, line: string)
    requires line == code + "\"" + text + "\""
    ensures code + (['"'] + (text + ['"'])) == line
  {
  }

  // ------------------------------------------------------------ arrays

  /** Leading and trailing white space do not change Python's `split()`. */
  lemma {:induction false} SplitWsStrip(s: string)
    ensures SplitWs(Base.StripWs(s)) == SplitWs(s)
    decreases |s|
  {
    if |s| > 0 && IsSpace(s[0]) {
      SplitWsStrip(s[1..]);
    } else if |s| > 0 && IsSpace(s[|s| - 1]) {
      SplitWsStrip(s[..|s| - 1]);
      SplitWsTrailing(s);
    }
  }

  lemma {:induction false} SplitWsTrailing(s: string)
    requires |s| > 0 && IsSpace(s[|s| - 1])
    ensures SplitWs(s[..|s| - 1]) == SplitWs(s)
    decreases |s|
  {
    var n := |s|;
    var t := s[..n - 1];
    if n == 1 {
      assert SplitWs(s) == SplitWs(s[1..]);
    } else if IsSpace(s[0]) {
      assert t[1..] == s[1..][..n - 2];
      SplitWsTrailing(s[1..]);
    } else {
      var j := NonSpaceRunEnd(s, 0);
      var k := NonSpaceRunEnd(t, 0);
      assert j == k;
      assert t[..j] == s[..j];
      assert t[j..] == s[j..][..|s[j..]| - 1];
      SplitWsTrailing(s[j..]);
    }
  }

  /** `_looks_like_array`: the stripped value is bracketed by '<' and '>'
      and holds at least two white-space separated items. */
  function LooksLikeArray(value: string): (r: bool)
    ensures r <==> (var v := Base.StripWs(value);
                    |v| >= 2 && v[0] == '<' && v[|v| - 1] == '>' && |SplitWs(v[1..|v| - 1])| >= 2)
  {
    if |value| == 0 then false
    else
      var v := Base.StripWs(value);
      // a single character cannot both start with '<' and end with '>'
      if |v| >= 2 && v[0] == '<' && v[|v| - 1] == '>' then
        var inner := Base.StripWs(v[1..|v| - 1]);
        SplitWsStrip(v[1..|v| - 1]);
        if |inner| == 0 then false
        else
          var values := SplitWs(inner);
          if |values| <= 1 then false else true
      else false
  }

  /** Items of a cell list: non-empty, no white space. */
  predicate Items(words: seq<string>)
  {
    forall k :: 0 <= k < |words| ==> Word(words[k])
  }

  function CellText(words: seq<string>): string
  {
    "<" + JoinWith(words, ' ') + ">"
  }

  lemma StripBracketed(v: string)
    requires |v| > 0 && !IsSpace(v[0]) && !IsSpace(v[|v| - 1])
    ensures Base.StripWs(v) == v
  {
  }

  lemma CellTextInner(words: seq<string>)
    ensures var v := CellText(words); |v| >= 2 && v[0] == '<' && v[|v| - 1] == '>' && v[1..|v| - 1] == JoinWith(words, ' ')
  {
  }

  /** A cell list written out is an array exactly when it has two items or more. */
  lemma ArrayOfItems(words: seq<string>)
    requires Items(words)
    ensures LooksLikeArray(CellText(words)) <==> |words| >= 2
  {
    var v := CellText(words);
    CellTextInner(words);
    StripBracketed(v);
    SplitWsJoin(words);
  }

  // ------------------------------------------------------------ types

  /** The type names `_determine_property_type` returns. */
  datatype PropType =
    | Boolean | EmptyCells | PhandleArray | Uint32 | Uint32Array | Uint32Matrix(group: nat)
    | Uint64 | Uint64Bits | Uint64BitsArray | Uint16 | Uint16Array | Uint8 | Uint8BitsArray
    | Uint8Array | Text | TextArray | Unknown

  /** The type hint lists and the `/bits/` widths the scanner recorded. */
  datatype Hints = Hints(stringProperties: set<string>, booleanProperties: set<string>,
                         phandleArrayProperties: set<string>, potential64bitProperties: set<string>,
                         bitWidths: map<string, int>)

  /** `_is_64bit_value`. */
  function Is64BitValue(cells: seq<string>): (r: bool)
    ensures r <==> |cells| == 2 && StartsWith(cells[0], "0x") && StartsWith(cells[1], "0x")
  {
    |cells| == 2 && forall c | c in cells :: StartsWith(c, "0x")
  }

  /** `_determine_cell_grouping`, the later of its two definitions in the
      class, which is the one Python keeps. */
  function CellGrouping(name: string, cells: seq<string>): (g: nat)
    ensures g == 1 || g == 2 || g == 3
    ensures g == 2 <==> (name == "reg" || name == "clocks" || name == "resets") && |cells| % 2 == 0
    ensures g == 3 <==> (name == "ranges" || name == "interrupts") && |cells| % 3 == 0
    ensures |cells| % g == 0 || g == 1
  {
    if name == "reg" || name == "ranges" then
      if name == "reg" && |cells| % 2 == 0 then 2
      else if name == "ranges" && |cells| % 3 == 0 then 3
      else 1
    else if name == "interrupts" && |cells| % 3 == 0 then 3
    else if (name == "clocks" || name == "resets") && |cells| % 2 == 0 then 2
    else 1
  }

  function Grouped(name: string, cells: seq<string>): PropType
  {
    var g := CellGrouping(name, cells);
    if g > 1 then Uint32Matrix(g) else Uint32Array
  }

  /** The type a `/bits/` width gives. */
  function BitsType(width: int, isArray: bool): PropType
  {
    if width == 64 then (if isArray then Uint64BitsArray else Uint64Bits)
    else if width == 32 then (if isArray then Uint32Array else Uint32)
    else if width == 16 then (if isArray then Uint16Array else Uint16)
    else if width == 8 then (if isArray then Uint8BitsArray else Uint8)
    else if isArray then Uint32Array else Uint32
  }

  /** The value-based part of `_determine_property_type`, on the stripped
      value. */
  function ValueType(h: Hints, name: string, value: string): PropType
  {
    if |value| == 0 then Boolean
    else if |value| >= 2 && value[0] == '<' && value[|value| - 1] == '>' then
      var cells := SplitWs(Base.StripWs(value[1..|value| - 1]));
      if |cells| == 0 then EmptyCells
      else if '&' in value then PhandleArray
      else if |cells| == 1 then Uint32
      else if |cells| == 2 then
        if name in h.phandleArrayProperties then Grouped(name, cells)
        else if name in h.potential64bitProperties && Is64BitValue(cells) then Uint64
        else Uint32Array
      else Grouped(name, cells)
    else if |value| >= 2 && value[0] == '[' && value[|value| - 1] == ']' then Uint8Array
    else if '"' in value then
      if Contains(value, "\", \"") || Contains(value, "\",\"") then TextArray else Text
    else Unknown
  }

  /** `_determine_property_type`: the string and boolean hint lists first,
      then a recorded `/bits/` width, then the shape of the value. */
  function PropertyType(h: Hints, name: string, raw: string): (r: PropType)
    ensures name in h.stringProperties ==> (r == Text <==> '"' in Base.StripWs(raw)) && (r == Text || r == Unknown)
    ensures name !in h.stringProperties && name in h.booleanProperties ==> r == Boolean
    ensures r.Uint32Matrix? ==> r.group == 2 || r.group == 3
  {
    var value := Base.StripWs(raw);
    if name in h.stringProperties then (if '"' in value then Text else Unknown)
    else if name in h.booleanProperties then Boolean
    else if name in h.bitWidths then BitsType(h.bitWidths[name], LooksLikeArray(value))
    else ValueType(h, name, value)
  }

  /** A name no hint list or `/bits/` width mentions. */
  predicate Unhinted(h: Hints, name: string)
  {
    name !in h.stringProperties && name !in h.booleanProperties && name !in h.bitWidths
  }

  lemma {:induction false} JoinWithout(words: seq<string>, c: char, sep: char)
    requires c != sep
    requires forall k :: 0 <= k < |words| ==> c !in words[k]
    ensures c !in JoinWith(words, sep)
    decreases |words|
  {
    if |words| > 1 {
      JoinWithout(words[1..], c, sep);
    }
  }

  /** Without hints the type is read off the stripped value. */
  lemma UnhintedType(h: Hints, name: string, raw: string)
    requires Unhinted(h, name)
    ensures PropertyType(h, name, raw) == ValueType(h, name, Base.StripWs(raw))
  {
  }

  /** The cells of a written-out cell list, and no phandle reference in it. */
  lemma CellListParts(words: seq<string>)
    requires Items(words)
    requires forall k :: 0 <= k < |words| ==> '&' !in words[k]
    ensures var v := CellText(words);
      && Base.StripWs(v) == v && |v| >= 2 && v[0] == '<' && v[|v| - 1] == '>'
      && SplitWs(Base.StripWs(v[1..|v| - 1])) == words && '&' !in v
  {
    var v := CellText(words);
    CellTextInner(words);
    StripBracketed(v);
    SplitWsStrip(v[1..|v| - 1]);
    SplitWsJoin(words);
    JoinWithout(words, '&', ' ');
    assert v == "<" + JoinWith(words, ' ') + ">";
  }

  /** The value branch of an angle-bracketed value without `&`. */
  lemma AngleType(h: Hints, name: string, v: string, words: seq<string>)
    requires |v| >= 2 && v[0] == '<' && v[|v| - 1] == '>' && '&' !in v
    requires SplitWs(Base.StripWs(v[1..|v| - 1])) == words
    ensures var r := ValueType(h, name, v);
      && (|words| == 0 ==> r == EmptyCells)
      && (|words| == 1 ==> r == Uint32)
      && (|words| == 2 ==> r == (if name in h.phandleArrayProperties then Grouped(name, words)
                                else if name in h.potential64bitProperties && Is64BitValue(words) then Uint64
                                else Uint32Array))
      && (|words| > 2 ==> r == Grouped(name, words))
  {
  }

  /** A cell list written out: no cells is empty, one cell is a uint32,
      two cells are a uint64 only for a potential 64-bit name with two
      hex cells, and a matrix always has whole groups. */
  lemma CellListTypes(h: Hints, name: string, words: seq<string>)
    requires Unhinted(h, name)
    requires Items(words)
    requires forall k :: 0 <= k < |words| ==> '&' !in words[k]
    ensures var r := PropertyType(h, name, CellText(words));
      && (r == EmptyCells <==> |words| == 0)
      && (r == Uint32 <==> |words| == 1)
      && (r == Uint64 <==> |words| == 2 && name !in h.phandleArrayProperties
                           && name in h.potential64bitProperties && Is64BitValue(words))
      && (r.Uint32Matrix? ==> |words| >= 2 && |words| % r.group == 0)
      && (|words| >= 2 ==> r.Uint32Matrix? || r == Uint32Array || r == Uint64)
  {
    var v := CellText(words);
    CellListParts(words);
    UnhintedType(h, name, v);
    AngleType(h, name, v, words);
  }

  /** A value in square brackets is a byte array. */
  lemma ByteArrayType(h: Hints, name: string, body: string)
    requires Unhinted(h, name)
    ensures PropertyType(h, name, "[" + body + "]") == Uint8Array
  {
    var v := "[" + body + "]";
    StripBracketed(v);
  }

  /** An empty value is a boolean. */
  lemma EmptyIsBoolean(h: Hints, name: string)
    requires Unhinted(h, name)
    ensures PropertyType(h, name, "") == Boolean
  {
  }

  /** Double-quoted parts joined by ", ". */
  function Quoted(parts: seq<string>): string
  {
    if |parts| == 0 then ""
    else if |parts| == 1 then "\"" + parts[0] + "\""
    else "\"" + parts[0] + "\", " + Quoted(parts[1..])
  }

  lemma {:induction false} ContainsAt(a: string, sub: string, b: string)
    ensures Contains(a + sub + b, sub)
    decreases |a|
  {
    var s := a + sub + b;
    if |a| == 0 {
      assert s[..|sub|] == sub;
    } else {
      assert s[1..] == a[1..] + sub + b;
      ContainsAt(a[1..], sub, b);
    }
  }

  lemma {:induction false} ContainsNeeds(s: string, sub: string, c: char)
    requires c in sub && c !in s
    ensures !Contains(s, sub)
    decreases |s|
  {
    if |s| > 0 {
      ContainsNeeds(s[1..], sub, c);
    }
  }

  /** One quoted string without a comma is a string. */
  lemma QuotedStringType(h: Hints, name: string, text: string)
    requires Unhinted(h, name)
    requires '"' !in text && ',' !in text
    ensures PropertyType(h, name, Quoted([text])) == Text
  {
    var v := Quoted([text]);
    assert v == "\"" + text + "\"";
    StripBracketed(v);
    assert ',' !in v;
    ContainsNeeds(v, "\", \"", ',');
    ContainsNeeds(v, "\",\"", ',');
  }

  /** The value branch of a double-quoted value. */
  lemma QuotedValueType(h: Hints, name: string, v: string)
    requires |v| >= 2 && v[0] == '"' && v[|v| - 1] == '"'
    ensures ValueType(h, name, v) == if Contains(v, "\", \"") || Contains(v, "\",\"") then TextArray else Text
  {
    assert '"' in v;
  }

  /** Two or more parts: the first is followed by `", "` and the opening
      quote of the second. */
  lemma QuotedSplit(parts: seq<string>)
    requires |parts| >= 2
    ensures Quoted(parts) == ("\"" + parts[0]) + "\", \"" + Quoted(parts[1..])[1..]
  {
    var rest := Quoted(parts[1..]);
    QuotedEnds(parts[1..]);
    assert rest == ['"'] + rest[1..];
    QuoteShift("\"" + parts[0], rest[1..]);
  }

  /** Moving the opening quote of what follows across the separator. */
  lemma QuoteShift(a: string, x: string)
    ensures a + "\", " + (['"'] + x) == a + "\", \"" + x
  {
    assert "\", " + ['"'] == "\", \"";
  }

  /** Two or more quoted strings joined by ", " are a string array. */
  lemma QuotedListType(h: Hints, name: string, parts: seq<string>)
    requires Unhinted(h, name)
    requires |parts| >= 2
    ensures PropertyType(h, name, Quoted(parts)) == TextArray
  {
    var v := Quoted(parts);
    QuotedEnds(parts);
    StripBracketed(v);
    UnhintedType(h, name, v);
    QuotedValueType(h, name, v);
    QuotedSplit(parts);
    ContainsAt("\"" + parts[0], "\", \"", Quoted(parts[1..])[1..]);
  }

  lemma {:induction false} QuotedEnds(parts: seq<string>)
    requires |parts| >= 1
    ensures var q := Quoted(parts); |q| >= 2 && q[0] == '"' && q[|q| - 1] == '"'
    decreases |parts|
  {
    if |parts| > 1 {
      QuotedEnds(parts[1..]);
    }
  }

  // ------------------------------------------------------------ heuristics

  /** A prefix rule of the name heuristics table: a type outright, or
      (suffix, type) pairs checked in order. */
  datatype PrefixRule<F> = Direct(fmt: F) | BySuffix(rules: seq<(string, F)>)

  /** The name heuristics table (exact names, suffixes, prefixes, in their
      dictionary order) and the compiled regular expression patterns, each
      given as its match test on a name. */
  datatype Heuristics<F> = Heuristics(exact: map<string, F>, suffixes: seq<(string, F)>,
                                      prefixes: seq<(string, PrefixRule<F>)>,
                                      patterns: seq<(string -> bool, F)>)

  /** The first suffix rule from index i on that the name ends with. */
  function SuffixFrom<F>(rules: seq<(string, F)>, name: string, i: nat): (r: Option<nat>)
    ensures r.Some? ==> i <= r.value < |rules| && EndsWith(name, rules[r.value].0)
                        && forall j :: i <= j < r.value ==> !EndsWith(name, rules[j].0)
    ensures r.None? ==> forall j :: i <= j < |rules| ==> !EndsWith(name, rules[j].0)
    decreases |rules| - i
  {
    if i >= |rules| then None
    else if EndsWith(name, rules[i].0) then Some(i)
    else SuffixFrom(rules, name, i + 1)
  }

  /** A prefix rule decides for a name: the name starts with the prefix,
      and for a rule with suffixes one of them ends the name. */
  predicate PrefixDecides<F>(rule: (string, PrefixRule<F>), name: string)
  {
    StartsWith(name, rule.0) && (rule.1.Direct? || SuffixFrom(rule.1.rules, name, 0).Some?)
  }

  function PrefixType<F>(rule: (string, PrefixRule<F>), name: string): F
    requires PrefixDecides(rule, name)
  {
    match rule.1
    case Direct(f) => f
    case BySuffix(rules) => rules[SuffixFrom(rules, name, 0).value].1
  }

  /** The first prefix rule from index i on that decides; a prefix whose
      suffixes all miss lets the search go on. */
  function PrefixFrom<F>(rules: seq<(string, PrefixRule<F>)>, name: string, i: nat): (r: Option<nat>)
    ensures r.Some? ==> i <= r.value < |rules| && PrefixDecides(rules[r.value], name)
                        && forall j :: i <= j < r.value ==> !PrefixDecides(rules[j], name)
    ensures r.None? ==> forall j :: i <= j < |rules| ==> !PrefixDecides(rules[j], name)
    decreases |rules| - i
  {
    if i >= |rules| then None
    else if StartsWith(name, rules[i].0) then
      match rules[i].1
      case Direct(_) => Some(i)
      case BySuffix(suffixes) =>
        if SuffixFrom(suffixes, name, 0).Some? then Some(i) else PrefixFrom(rules, name, i + 1)
    else PrefixFrom(rules, name, i + 1)
  }

  /** The first regular expression pattern from index i on that matches. */
  function PatternFrom<F>(patterns: seq<(string -> bool, F)>, name: string, i: nat): (r: Option<nat>)
    ensures r.Some? ==> i <= r.value < |patterns| && patterns[r.value].0(name)
                        && forall j :: i <= j < r.value ==> !patterns[j].0(name)
    ensures r.None? ==> forall j :: i <= j < |patterns| ==> !patterns[j].0(name)
    decreases |patterns| - i
  {
    if i >= |patterns| then None
    else if patterns[i].0(name) then Some(i)
    else PatternFrom(patterns, name, i + 1)
  }

  /** `_apply_heuristics`; `unknown` is LopperFmt.UNKNOWN. */
  function ApplyHeuristics<F>(h: Heuristics<F>, name: string, unknown: F): F
  {
    if name in h.exact then h.exact[name]
    else match SuffixFrom(h.suffixes, name, 0)
      case Some(k) => h.suffixes[k].1
      case None =>
        match PrefixFrom(h.prefixes, name, 0)
        case Some(k) => PrefixType(h.prefixes[k], name)
        case None =>
          match PatternFrom(h.patterns, name, 0)
          case Some(k) => h.patterns[k].1
          case None => unknown
  }

  /** The order of the heuristics: an exact name wins; otherwise the first
      suffix the name ends with; otherwise the first prefix rule that
      decides; otherwise the first matching pattern; otherwise unknown. */
  lemma HeuristicsOrder<F>(h: Heuristics<F>, name: string, unknown: F, k: nat)
    ensures name in h.exact ==> ApplyHeuristics(h, name, unknown) == h.exact[name]
    ensures name !in h.exact && k < |h.suffixes| && EndsWith(name, h.suffixes[k].0)
            && (forall j :: 0 <= j < k ==> !EndsWith(name, h.suffixes[j].0))
            ==> ApplyHeuristics(h, name, unknown) == h.suffixes[k].1
    ensures name !in h.exact && (forall j :: 0 <= j < |h.suffixes| ==> !EndsWith(name, h.suffixes[j].0))
            && k < |h.prefixes| && PrefixDecides(h.prefixes[k], name)
            && (forall j :: 0 <= j < k ==> !PrefixDecides(h.prefixes[j], name))
            ==> ApplyHeuristics(h, name, unknown) == PrefixType(h.prefixes[k], name)
    ensures name !in h.exact && (forall j :: 0 <= j < |h.suffixes| ==> !EndsWith(name, h.suffixes[j].0))
            && (forall j :: 0 <= j < |h.prefixes| ==> !PrefixDecides(h.prefixes[j], name))
            && k < |h.patterns| && h.patterns[k].0(name)
            && (forall j :: 0 <= j < k ==> !h.patterns[j].0(name))
            ==> ApplyHeuristics(h, name, unknown) == h.patterns[k].1
    ensures name !in h.exact && (forall j :: 0 <= j < |h.suffixes| ==> !EndsWith(name, h.suffixes[j].0))
            && (forall j :: 0 <= j < |h.prefixes| ==> !PrefixDecides(h.prefixes[j], name))
            && (forall j :: 0 <= j < |h.patterns| ==> !h.patterns[j].0(name))
            ==> ApplyHeuristics(h, name, unknown) == unknown
  {
  }

  // ------------------------------------------------------------ node patterns

  /** A whole match of the node pattern p against s, where '*' stands for
      one or more characters other than '/' and any other character for
      itself. */
  predicate GlobMatch(s: string, p: string)
    decreases |p|, |s| + 1
  {
    if |p| == 0 then |s| == 0
    else if p[0] == '*' then StarMatch(s, p[1..], 1)
    else |s| > 0 && s[0] == p[0] && GlobMatch(s[1..], p[1..])
  }

  /** The star takes s[..k] (no '/' in s[..k - 1] by construction) and the
      rest of the pattern matches what follows, for this k or a larger one. */
  predicate StarMatch(s: string, rest: string, k: nat)
    decreases |rest|, |s| - k + 2
  {
    0 < k <= |s| && s[k - 1] != '/' && (GlobMatch(s[k..], rest) || StarMatch(s, rest, k + 1))
  }

  /** Some '/' at index k or later is followed by a whole match. */
  predicate MatchFrom(path: string, pattern: string, k: nat)
    decreases |path| - k
  {
    k < |path| && ((path[k] == '/' && GlobMatch(path[k + 1..], pattern)) || MatchFrom(path, pattern, k + 1))
  }

  /** `_matches_pattern`: the path matches any prefix, then a '/', then
      the pattern with each '*' read as one or more non-'/' characters,
      up to the end of the path. */
  predicate MatchesPattern(path: string, pattern: string)
  {
    MatchFrom(path, pattern, 0)
  }

  lemma {:induction false} GlobLiteral(s: string, p: string)
    requires '*' !in p
    ensures GlobMatch(s, p) <==> s == p
    decreases |p|
  {
    if |p| > 0 && |s| > 0 {
      GlobLiteral(s[1..], p[1..]);
      assert s == [s[0]] + s[1..];
      assert p == [p[0]] + p[1..];
    }
  }

  lemma {:induction false} MatchFromLiteral(path: string, pattern: string, k: nat)
    requires '*' !in pattern
    requires k + |pattern| < |path|
    ensures MatchFrom(path, pattern, k) <==> EndsWith(path, "/" + pattern)
    decreases |path| - k
  {
    GlobLiteral(path[k + 1..], pattern);
    var j := |path| - |pattern| - 1;
    assert EndsWith(path, "/" + pattern) <==> path[j] == '/' && path[j + 1..] == pattern;
    if k < j {
      MatchFromLiteral(path, pattern, k + 1);
    } else {
      GlobLiteral(path[k + 1..], pattern);
      assert !MatchFrom(path, pattern, k + 1) by {
        if k + 1 < |path| {
          MatchFromShort(path, pattern, k + 1);
        }
      }
    }
  }

  lemma {:induction false} MatchFromShort(path: string, pattern: string, k: nat)
    requires '*' !in pattern
    requires |path| < k + |pattern| + 1
    ensures !MatchFrom(path, pattern, k)
    decreases |path| - k
  {
    if k < |path| {
      GlobLiteral(path[k + 1..], pattern);
      MatchFromShort(path, pattern, k + 1);
    }
  }

  /** A pattern without '*' matches exactly the paths ending in '/' and the
      pattern. */
  lemma LiteralPattern(path: string, pattern: string)
    requires '*' !in pattern
    ensures MatchesPattern(path, pattern) <==> EndsWith(path, "/" + pattern)
  {
    if |pattern| < |path| {
      MatchFromLiteral(path, pattern, 0);
    } else {
      MatchFromShort(path, pattern, 0);
    }
  }

  lemma {:induction false} NoSlashNoMatch(path: string, pattern: string, k: nat)
    requires forall i :: 0 <= i < |path| ==> path[i] != '/'
    ensures !MatchFrom(path, pattern, k)
    decreases |path| - k
  {
    if k < |path| {
      NoSlashNoMatch(path, pattern, k + 1);
    }
  }

  lemma {:induction false} StarTakesAll(s: string, k: nat)
    requires 0 < k <= |s|
    requires forall i :: 0 <= i < |s| ==> s[i] != '/'
    ensures StarMatch(s, "", k)
    decreases |s| - k
  {
    if k < |s| {
      StarTakesAll(s, k + 1);
    }
  }

  lemma {:induction false} GlobLiteralPrefix(a: string, s: string, p: string)
    requires '*' !in a
    ensures GlobMatch(a + s, a + p) <==> GlobMatch(s, p)
    decreases |a|
  {
    if |a| > 0 {
      assert a[0] in a;
      assert (a + p)[0] == a[0] && (a + s)[0] == a[0];
      assert (a + s)[1..] == a[1..] + s;
      assert (a + p)[1..] == a[1..] + p;
      assert GlobMatch(a + s, a + p) == GlobMatch(a[1..] + s, a[1..] + p);
      GlobLiteralPrefix(a[1..], s, p);
    } else {
      assert a + s == s && a + p == p;
    }
  }

  lemma {:induction false} MatchFromAt(path: string, pattern: string, k: nat, j: nat)
    requires k <= j < |path| && path[j] == '/' && GlobMatch(path[j + 1..], pattern)
    ensures MatchFrom(path, pattern, k)
    decreases j - k
  {
    if k < j {
      MatchFromAt(path, pattern, k + 1, j);
    }
  }

  /** A pattern "name@*" matches a path whose last node is that name with a
      unit address. */
  lemma UnitAddressPattern(dir: string, name: string, unit: string)
    requires '*' !in name && '/' !in name
    requires |unit| > 0 && forall i :: 0 <= i < |unit| ==> unit[i] != '/'
    ensures MatchesPattern(dir + "/" + name + "@" + unit, name + "@*")
  {
    var path := dir + "/" + name + "@" + unit;
    StarTakesAll(unit, 1);
    assert GlobMatch(unit[|unit|..], "");
    assert GlobMatch(unit, "*");
    assert '*' !in name + "@";
    GlobLiteralPrefix(name + "@", unit, "*");
    assert name + "@*" == (name + "@") + "*";
    assert path[|dir| + 1..] == (name + "@") + unit;
    MatchFromAt(path, name + "@*", 0, |dir|);
  }

  /** A path without '/' matches no pattern. */
  lemma SlashNeeded(path: string, pattern: string)
    requires forall i :: 0 <= i < |path| ==> path[i] != '/'
    ensures !MatchesPattern(path, pattern)
  {
    NoSlashNoMatch(path, pattern, 0);
  }
}
