/** Shared vocabulary of the lopper model: optional values, results that carry
    the Python exception a source path raises, property values, 32-bit cells
    and the text helpers several modules need. */
module Common {

  datatype Option<+T> = None | Some(value: T)

  /** The exception (or `sys.exit`) a source path ends in. */
  datatype Error =
    | KeyError
    | ValueError
    | IndexError
    | TypeError
    | NameError
    | AttributeError
    | StopIteration
    | OverflowError
    | ZeroDivisionError
    | SystemExit

  datatype Result<+T> = Ok(value: T) | Err(error: Error)

  /** One element of a property value list: devicetree properties hold
      integers (cells) or strings. */
  datatype PVal = Num(n: int) | Str(s: string)

  /** A property value reads as true in Python when the property exists
      and its value list is not empty. */
  predicate Truthy(v: Option<seq<PVal>>)
  {
    v.Some? && |v.value| > 0
  }

  const TWO32: int := 0x1_0000_0000

  type byte = x: int | 0 <= x < 256
  type Cell = x: int | 0 <= x < 0x1_0000_0000

  /** A regular-expression test `re.search(pattern, s)`; regex semantics are
      not modelled, so every operation that matches takes one of these. */
  type Matcher = (string, string) -> bool

  function Flatten<T>(xss: seq<seq<T>>): (r: seq<T>)
    ensures |xss| == 0 ==> r == []
  {
    if |xss| == 0 then [] else xss[0] + Flatten(xss[1..])
  }

  lemma {:induction false} FlattenAppend<T>(xss: seq<seq<T>>, ys: seq<T>)
    ensures Flatten(xss + [ys]) == Flatten(xss) + ys
  {
    if |xss| == 0 {
      assert xss + [ys] == [ys];
    } else {
      assert (xss + [ys])[1..] == xss[1..] + [ys];
      FlattenAppend(xss[1..], ys);
    }
  }

  function Sum(xs: seq<nat>): nat
  {
    if |xs| == 0 then 0 else xs[0] + Sum(xs[1..])
  }

  lemma {:induction false} SumAppend(xs: seq<nat>, x: nat)
    ensures Sum(xs + [x]) == Sum(xs) + x
  {
    if |xs| == 0 {
      assert xs + [x] == [x];
    } else {
      assert (xs + [x])[1..] == xs[1..] + [x];
      SumAppend(xs[1..], x);
    }
  }

  /** Python's `str(n)` for a natural number. */
  function NatToDecimal(n: nat): (r: string)
    ensures |r| > 0
    ensures forall i :: 0 <= i < |r| ==> '0' <= r[i] <= '9'
    decreases n
  {
    if n < 10 then [DigitChar(n)] else NatToDecimal(n / 10) + [DigitChar(n % 10)]
  }

  function DigitChar(d: nat): (c: char)
    requires d < 10
    ensures '0' <= c <= '9'
  {
    ['0', '1', '2', '3', '4', '5', '6', '7', '8', '9'][d]
  }

  predicate StartsWith(s: string, prefix: string)
  {
    |prefix| <= |s| && s[..|prefix|] == prefix
  }

  predicate EndsWith(s: string, suffix: string)
  {
    |suffix| <= |s| && s[|s| - |suffix|..] == suffix
  }

  /** Where a Python slice bound lands in a sequence of length n: a
      negative bound counts from the end, and bounds are clamped. */
  function SliceBound(i: int, n: nat): (k: nat)
    ensures k <= n
    ensures 0 <= i <= n ==> k == i
    ensures -(n as int) <= i < 0 ==> k as int == n as int + i
  {
    if i < 0 then (if n + i < 0 then 0 else n + i) else if i > n then n else i
  }

  /** Python's `s[a:b]`. */
  function PySlice<T>(s: seq<T>, a: int, b: int): (r: seq<T>)
    ensures 0 <= a <= b <= |s| ==> r == s[a..b]
    ensures 0 < -a <= |s| && b == |s| ==> r == s[|s| + a..]
    ensures |r| <= |s|
  {
    var x := SliceBound(a, |s|);
    var y := SliceBound(b, |s|);
    if x < y then s[x..y] else []
  }

  /** Python's `s[i]`: a negative index counts from the end, and an index
      out of range (IndexError) gives None. */
  function PyAt<T>(s: seq<T>, i: int): (r: Option<T>)
    ensures r.Some? <==> -|s| <= i < |s|
    ensures 0 <= i < |s| ==> r == Some(s[i])
  {
    if 0 <= i < |s| then Some(s[i]) else if -|s| <= i < 0 then Some(s[|s| + i]) else None
  }

  /** Python's `sub in s` for strings. */
  predicate Contains(s: string, sub: string)
    decreases |s|
  {
    StartsWith(s, sub) || (|s| > 0 && Contains(s[1..], sub))
  }

  /** Python's `s.split(sep)` for a one-character separator. */
  function SplitOn(s: string, sep: char): (r: seq<string>)
    ensures |r| > 0
    decreases |s|
  {
    if |s| == 0 then [""]
    else if s[0] == sep then [""] + SplitOn(s[1..], sep)
    else
      var rest := SplitOn(s[1..], sep);
      [[s[0]] + rest[0]] + rest[1..]
  }

  /** `sep.join(parts)` for a one-character separator. */
  function JoinWith(parts: seq<string>, sep: char): string
  {
    if |parts| == 0 then ""
    else if |parts| == 1 then parts[0]
    else parts[0] + [sep] + JoinWith(parts[1..], sep)
  }

  lemma {:induction false} SplitPrefix(a: string, sep: char, rest: string)
    requires sep !in a
    ensures SplitOn(a + [sep] + rest, sep) == [a] + SplitOn(rest, sep)
    decreases |a|
  {
    if |a| == 0 {
      assert a + [sep] + rest == [sep] + rest;
      assert ([sep] + rest)[1..] == rest;
    } else {
      assert (a + [sep] + rest)[1..] == a[1..] + [sep] + rest;
      SplitPrefix(a[1..], sep, rest);
      assert [a[0]] + a[1..] == a;
    }
  }

  lemma {:induction false} SplitNoSep(a: string, sep: char)
    requires sep !in a
    ensures SplitOn(a, sep) == [a]
    decreases |a|
  {
    if |a| > 0 {
      SplitNoSep(a[1..], sep);
      assert [a[0]] + a[1..] == a;
    }
  }

  /** Splitting a join gives the parts back when no part holds the separator. */
  lemma {:induction false} SplitJoin(parts: seq<string>, sep: char)
    requires |parts| > 0
    requires forall i :: 0 <= i < |parts| ==> sep !in parts[i]
    ensures SplitOn(JoinWith(parts, sep), sep) == parts
    decreases |parts|
  {
    if |parts| == 1 {
      SplitNoSep(parts[0], sep);
    } else {
      SplitJoin(parts[1..], sep);
      SplitPrefix(parts[0], sep, JoinWith(parts[1..], sep));
    }
  }

  /** A character Python's `str.split()` treats as white space (ASCII). */
  predicate IsSpace(c: char)
  {
    c == ' ' || ('\t' <= c <= '\r') || (28 <= c as int <= 31)
  }

  function NonSpaceRunEnd(s: string, i: nat): (j: nat)
    requires i <= |s|
    ensures i <= j <= |s|
    ensures forall k :: i <= k < j ==> !IsSpace(s[k])
    ensures j < |s| ==> IsSpace(s[j])
    decreases |s| - i
  {
    if i < |s| && !IsSpace(s[i]) then NonSpaceRunEnd(s, i + 1) else i
  }

  /** Python's `s.split()`: the maximal runs of non-space characters. */
  function SplitWs(s: string): (r: seq<string>)
    ensures forall k :: 0 <= k < |r| ==> |r[k]| > 0
    decreases |s|
  {
    if |s| == 0 then []
    else if IsSpace(s[0]) then SplitWs(s[1..])
    else
      var j := NonSpaceRunEnd(s, 0);
      [s[..j]] + SplitWs(s[j..])
  }

  predicate Word(w: string)
  {
    |w| > 0 && forall k :: 0 <= k < |w| ==> !IsSpace(w[k])
  }

  lemma {:induction false} NonSpaceRunOfWord(w: string, rest: string)
    requires Word(w)
    requires |rest| > 0 ==> IsSpace(rest[0])
    ensures NonSpaceRunEnd(w + rest, 0) == |w|
  {
    var s := w + rest;
    assert forall k :: 0 <= k < |w| ==> s[k] == w[k];
    assert |rest| > 0 ==> s[|w|] == rest[0];
  }

  /** Splitting words joined by single spaces gives the words back. */
  lemma {:induction false} SplitWsJoin(words: seq<string>)
    requires forall k :: 0 <= k < |words| ==> Word(words[k])
    ensures SplitWs(JoinWith(words, ' ')) == words
    decreases |words|
  {
    if |words| == 1 {
      NonSpaceRunOfWord(words[0], "");
      assert words[0] + "" == words[0];
      assert words[0][|words[0]|..] == "";
    } else if |words| > 1 {
      var rest := JoinWith(words[1..], ' ');
      var s := words[0] + [' '] + rest;
      assert JoinWith(words, ' ') == s;
      NonSpaceRunOfWord(words[0], [' '] + rest);
      assert s == words[0] + ([' '] + rest);
      assert s[..|words[0]|] == words[0];
      assert s[|words[0]|..] == [' '] + rest;
      assert ([' '] + rest)[1..] == rest;
      SplitWsJoin(words[1..]);
    }
  }
}
