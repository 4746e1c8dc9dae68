/** The pure pieces of lopper/assists/yaml_to_dts_expansion.py, the assist
    that expands the compact YAML domain description into devicetree
    properties: glob patterns for device names, the device-list editor
    `domain_devices`, the bit encodings of access flags and cpu modes, and
    the four-word CDO flag descriptor of `expand_cdo_flags_bits`. Regular
    expression matching is a parameter. */
module YamlExpansion {
  import opened Common
  import opened Bits

  // ---------------------------------------------------------------------
  // Glob patterns

  /** `is_glob_pattern(string)`: the text holds a `*` or a `?`. */
  predicate IsGlobPattern(s: string)
  {
    '*' in s || '?' in s
  }

  /** The characters `re.escape` puts a backslash before. */
  const SPECIAL: seq<char> := [
    '(', ')', '[', ']', '{', '}', '?', '*', '+', '-', '|', '^', '$', '\\',
    '.', '&', '~', '#', ' ', '\t', '\n', '\r', 11 as char, 12 as char]

  /** `re.escape` of one character. */
  function EscapeChar(c: char): (r: string)
    ensures c in SPECIAL ==> r == ['\\', c]
    ensures c !in SPECIAL ==> r == [c]
  {
    if c in SPECIAL then ['\\', c] else [c]
  }

  /** `re.escape(s)`. */
  function EscapeAll(s: string): string
    decreases |s|
  {
    if s == [] then [] else EscapeChar(s[0]) + EscapeAll(s[1..])
  }

  /** `s.replace(a + b, rep)` for a two-character pattern: the leftmost
      occurrence is replaced first and occurrences never overlap. */
  function ReplacePair(s: string, a: char, b: char, rep: string): string
    decreases |s|
  {
    if |s| >= 2 && s[0] == a && s[1] == b then rep + ReplacePair(s[2..], a, b, rep)
    else if s == [] then []
    else [s[0]] + ReplacePair(s[1..], a, b, rep)
  }

  /** `glob_to_regex(glob_pattern)`: escape, turn the escaped `*` into
      `.*` and the escaped `?` into `.`, and anchor both ends. */
  function GlobToRegex(g: string): (r: string)
    ensures |r| >= 2 && r[0] == '^' && r[|r| - 1] == '$'
  {
    "^" + ReplacePair(ReplacePair(EscapeAll(g), '\\', '*', ".*"), '\\', '?', ".") + "$"
  }

  /** What one glob character stands for in the regular expression. */
  function Translate(c: char): string
  {
    if c == '*' then ".*" else if c == '?' then "." else EscapeChar(c)
  }

  function TranslateAll(g: string): string
    decreases |g|
  {
    if g == [] then [] else Translate(g[0]) + TranslateAll(g[1..])
  }

  /** After the first replacement only. */
  function StarOnly(c: char): string
  {
    if c == '*' then ".*" else EscapeChar(c)
  }

  function StarOnlyAll(g: string): string
    decreases |g|
  {
    if g == [] then [] else StarOnly(g[0]) + StarOnlyAll(g[1..])
  }

  /** An escaped text never starts with a bare wildcard. */
  lemma EscapeHead(g: string)
    requires g != []
    ensures EscapeAll(g) != [] && EscapeAll(g)[0] != '*' && EscapeAll(g)[0] != '?'
  {
    assert EscapeAll(g) == EscapeChar(g[0]) + EscapeAll(g[1..]);
  }

  lemma StarOnlyHead(g: string)
    requires g != []
    ensures StarOnlyAll(g) != [] && StarOnlyAll(g)[0] != '?'
  {
    assert StarOnlyAll(g) == StarOnly(g[0]) + StarOnlyAll(g[1..]);
  }

  /** A first character that does not start the pattern is kept. */
  lemma ReplaceKeep(c: char, rest: string, a: char, b: char, rep: string)
    requires c != a || rest == [] || rest[0] != b
    ensures ReplacePair([c] + rest, a, b, rep) == [c] + ReplacePair(rest, a, b, rep)
  {
    assert ([c] + rest)[1..] == rest;
  }

  lemma ReplaceHit(a: char, b: char, rest: string, rep: string)
    ensures ReplacePair([a, b] + rest, a, b, rep) == rep + ReplacePair(rest, a, b, rep)
  {
    assert ([a, b] + rest)[2..] == rest;
  }

  /** Two leading characters that do not start the pattern are kept. */
  lemma KeepTwo(c1: char, c2: char, x: string, a: char, b: char, rep: string)
    requires c1 != a || c2 != b
    requires c2 != a || x == [] || x[0] != b
    ensures ReplacePair([c1, c2] + x, a, b, rep) == [c1, c2] + ReplacePair(x, a, b, rep)
  {
    assert [c1, c2] + x == [c1] + ([c2] + x);
    ReplaceKeep(c1, [c2] + x, a, b, rep);
    ReplaceKeep(c2, x, a, b, rep);
  }

  /** One character of the first replacement. */
  lemma StarStep(c: char, e: string)
    requires e == [] || (e[0] != '*' && e[0] != '?')
    ensures ReplacePair(EscapeChar(c) + e, '\\', '*', ".*") == StarOnly(c) + ReplacePair(e, '\\', '*', ".*")
  {
    if c == '*' {
      ReplaceHit('\\', '*', e, ".*");
    } else if c in SPECIAL {
      KeepTwo('\\', c, e, '\\', '*', ".*");
    } else {
      ReplaceKeep(c, e, '\\', '*', ".*");
    }
  }

  /** Replacing the escaped stars of an escaped text turns exactly the
      glob's stars into `.*`. */
  lemma {:induction false} StarStage(g: string)
    ensures ReplacePair(EscapeAll(g), '\\', '*', ".*") == StarOnlyAll(g)
    decreases |g|
  {
    if g != [] {
      var e := EscapeAll(g[1..]);
      assert EscapeAll(g) == EscapeChar(g[0]) + e;
      StarStage(g[1..]);
      if g[1..] != [] {
        EscapeHead(g[1..]);
      }
      StarStep(g[0], e);
    }
  }

  /** One character of the second replacement. */
  lemma QuestionStep(c: char, x: string)
    requires x == [] || x[0] != '?'
    ensures ReplacePair(StarOnly(c) + x, '\\', '?', ".") == Translate(c) + ReplacePair(x, '\\', '?', ".")
  {
    if c == '*' {
      KeepTwo('.', '*', x, '\\', '?', ".");
    } else if c == '?' {
      ReplaceHit('\\', '?', x, ".");
    } else if c in SPECIAL {
      KeepTwo('\\', c, x, '\\', '?', ".");
    } else {
      ReplaceKeep(c, x, '\\', '?', ".");
    }
  }

  /** Replacing the escaped question marks afterwards turns exactly the
      glob's question marks into `.`. */
  lemma {:induction false} QuestionStage(g: string)
    ensures ReplacePair(StarOnlyAll(g), '\\', '?', ".") == TranslateAll(g)
    decreases |g|
  {
    if g != [] {
      var x := StarOnlyAll(g[1..]);
      assert StarOnlyAll(g) == StarOnly(g[0]) + x;
      QuestionStage(g[1..]);
      if g[1..] != [] {
        StarOnlyHead(g[1..]);
      }
      QuestionStep(g[0], x);
    }
  }

  /** The regular expression is the anchored character-by-character
      translation: `*` becomes `.*`, `?` becomes `.`, and every other
      character stands for itself, escaped when `re.escape` escapes it. */
  lemma GlobToRegexTranslates(g: string)
    ensures GlobToRegex(g) == "^" + TranslateAll(g) + "$"
  {
    StarStage(g);
    QuestionStage(g);
  }

  lemma {:induction false} TranslateLiteral(g: string)
    requires !IsGlobPattern(g)
    ensures TranslateAll(g) == EscapeAll(g)
    decreases |g|
  {
    if g != [] {
      assert g == [g[0]] + g[1..];
      TranslateLiteral(g[1..]);
    }
  }

  /** A name without wildcards becomes the anchored escaped name, so it
      can only match itself. */
  lemma LiteralGlob(g: string)
    requires !IsGlobPattern(g)
    ensures GlobToRegex(g) == "^" + EscapeAll(g) + "$"
  {
    GlobToRegexTranslates(g);
    TranslateLiteral(g);
  }

  /** Lower-case letters, digits and `@` are not escaped. */
  lemma PlainChar(c: char)
    requires 'a' <= c <= 'z' || '0' <= c <= '9' || c == '@'
    ensures c !in SPECIAL && Translate(c) == [c]
  {
  }

  lemma TranslateCons(c: char, rest: string)
    ensures TranslateAll([c] + rest) == Translate(c) + TranslateAll(rest)
  {
    assert ([c] + rest)[1..] == rest;
  }

  /** The conversion the glob tests expect of `uart*`. */
  lemma GlobExample(g: string)
    requires g == "uart*"
    ensures GlobToRegex(g) == "^uart.*$"
  {
    GlobToRegexTranslates(g);
    PlainChar('u');
    PlainChar('a');
    PlainChar('r');
    PlainChar('t');
    var star: string := "*";
    TranslateCons('*', []);
    assert star == ['*'] + [];
    TranslateCons('t', star);
    TranslateCons('r', "t" + star);
    TranslateCons('a', "rt" + star);
    TranslateCons('u', "art" + star);
    assert g == ['u'] + ("art" + star);
    assert "art" + star == ['a'] + ("rt" + star);
    assert "rt" + star == ['r'] + ("t" + star);
    assert "t" + star == ['t'] + star;
  }

  // ---------------------------------------------------------------------
  // domain_devices

  /** An entry of a domain's access list: its `dev` name (None when the
      entry has no `dev` key) and its flags, each key mapped to whether its
      value is true. */
  datatype Device = Device(dev: Option<string>, flags: map<string, bool>)

  /** The `action` argument: the three `Action` members, or anything else. */
  datatype Action = Add | Get | Remove | Unknown

  /** The `device_name_or_regex` argument: a regular expression or a list
      of devices. */
  datatype Target = Pattern(regex: string) | DeviceList(list: seq<Device>)

  /** The devices a comprehension keeps; reading `device['dev']` of an
      entry without one is a KeyError. */
  function FilterDevices(devices: seq<Device>, keep: string -> bool): (r: Result<seq<Device>>)
    ensures r.Ok? <==> forall i | 0 <= i < |devices| :: devices[i].dev.Some?
    ensures r.Err? ==> r.error == KeyError
    ensures r.Ok? ==> forall d :: d in r.value <==> d in devices && keep(d.dev.value)
    ensures r.Ok? ==> |r.value| <= |devices|
    decreases |devices|
  {
    if devices == [] then Ok([])
    else if devices[0].dev.None? then Err(KeyError)
    else
      match FilterDevices(devices[1..], keep)
      case Err(e) => Err(e)
      case Ok(rest) =>
        assert forall i | 1 <= i < |devices| :: devices[i] == devices[1..][i - 1];
        Ok(if keep(devices[0].dev.value) then [devices[0]] + rest else rest)
  }

  /** `[device['dev'] for device in list]`. */
  function DevNames(list: seq<Device>): (r: Result<seq<string>>)
    ensures r.Ok? <==> forall i | 0 <= i < |list| :: list[i].dev.Some?
    ensures r.Err? ==> r.error == KeyError
    ensures r.Ok? ==> |r.value| == |list| && forall i | 0 <= i < |list| :: r.value[i] == list[i].dev.value
    decreases |list|
  {
    if list == [] then Ok([])
    else if list[0].dev.None? then Err(KeyError)
    else
      match DevNames(list[1..])
      case Err(e) => Err(e)
      case Ok(rest) => Ok([list[0].dev.value] + rest)
  }

  /** `domain_devices(devices, device_name_or_regex, action)`, with
      `re.match` as the parameter `matches(regex, name)`.
      GET keeps the devices whose name matches; a list instead of a
      pattern is a TypeError the function catches, answering [] (after
      reading the first device's name). ADD appends a list and ignores a
      pattern. REMOVE drops the devices named in a list, or those whose
      name matches a pattern. Any other action is a ValueError. */
  function DomainDevices(devices: seq<Device>, target: Target, action: Action,
                         matches: (string, string) -> bool): (r: Result<seq<Device>>)
    ensures action == Unknown <==> r == Err(ValueError)
    ensures action == Add ==> r == Ok(devices + if target.DeviceList? then target.list else [])
  {
    match action
    case Get =>
      (match target
       case Pattern(regex) => FilterDevices(devices, name => matches(regex, name))
       case DeviceList(_) =>
         if devices != [] && devices[0].dev.None? then Err(KeyError) else Ok([]))
    case Add =>
      Ok(devices + if target.DeviceList? then target.list else [])
    case Remove =>
      (match target
       case DeviceList(list) =>
         (match DevNames(list)
          case Err(e) => Err(e)
          case Ok(names) => FilterDevices(devices, name => name !in names))
       case Pattern(regex) => FilterDevices(devices, name => !matches(regex, name)))
    case Unknown => Err(ValueError)
  }

  /** REMOVE with a list drops exactly the devices whose name appears in
      the list, and keeps every other device. */
  lemma RemoveListExact(devices: seq<Device>, list: seq<Device>, matches: (string, string) -> bool)
    requires forall i | 0 <= i < |devices| :: devices[i].dev.Some?
    requires forall i | 0 <= i < |list| :: list[i].dev.Some?
    ensures DomainDevices(devices, DeviceList(list), Remove, matches).Ok?
    ensures forall d :: d in DomainDevices(devices, DeviceList(list), Remove, matches).value
               <==> d in devices && !(exists e :: e in list && e.dev == d.dev)
  {
    var names := DevNames(list).value;
    forall d | d in devices
      ensures d.dev.value in names <==> exists e :: e in list && e.dev == d.dev
    {
      if d.dev.value in names {
        var i :| 0 <= i < |names| && names[i] == d.dev.value;
        assert list[i] in list && list[i].dev == d.dev;
      }
    }
  }

  /** GET and REMOVE with one pattern split the devices between them. */
  lemma GetRemovePartition(devices: seq<Device>, regex: string, matches: (string, string) -> bool, d: Device)
    requires forall i | 0 <= i < |devices| :: devices[i].dev.Some?
    requires d in devices
    ensures d in DomainDevices(devices, Pattern(regex), Get, matches).value
            <==> d !in DomainDevices(devices, Pattern(regex), Remove, matches).value
  {
  }

  // ---------------------------------------------------------------------
  // Flag and mode bits

  /** A flag is on when its key is present with a true value. */
  predicate On(flags: map<string, bool>, key: string)
  {
    key in flags && flags[key]
  }

  /** `if flags[key]: value = set_bit(value, bit)`, a missing key being
      passed over. */
  function SetIf(value: nat, flags: map<string, bool>, key: string, bit: nat): (r: nat)
    ensures Bit(r, bit) == if On(flags, key) then 1 else Bit(value, bit)
    ensures forall j: nat :: j != bit ==> Bit(r, j) == Bit(value, j)
  {
    if On(flags, key) then SetBit(value, bit) else value
  }

  /** The flags value `access_expand` writes after a device's phandle:
      starting from 0, one bit per access flag that is on. */
  function AccessFlagsValue(flags: map<string, bool>): nat
  {
    var v0 := SetIf(0, flags, "timeshare", 0);
    var v1 := SetIf(v0, flags, "allow-secure", 2);
    var v2 := SetIf(v1, flags, "read-only", 4);
    var v3 := SetIf(v2, flags, "requested", 6);
    var v4 := SetIf(v3, flags, "requested-secure", 36);
    var v5 := SetIf(v4, flags, "coherent", 37);
    SetIf(v5, flags, "virtualized", 38)
  }

  /** The bit each access flag owns. */
  function AccessBit(k: nat): Option<string>
  {
    if k == 0 then Some("timeshare")
    else if k == 2 then Some("allow-secure")
    else if k == 4 then Some("read-only")
    else if k == 6 then Some("requested")
    else if k == 36 then Some("requested-secure")
    else if k == 37 then Some("coherent")
    else if k == 38 then Some("virtualized")
    else None
  }

  /** Bit k of the access flags value is set exactly when k is the bit of
      a flag that is on: timeshare 0, allow-secure 2, read-only 4,
      requested 6, requested-secure 36, coherent 37, virtualized 38. */
  lemma AccessFlagBits(flags: map<string, bool>, k: nat)
    ensures Bit(AccessFlagsValue(flags), k) == 1 <==> AccessBit(k).Some? && On(flags, AccessBit(k).value)
  {
    ZeroBit(k);
    var v0 := SetIf(0, flags, "timeshare", 0);
    var v1 := SetIf(v0, flags, "allow-secure", 2);
    var v2 := SetIf(v1, flags, "read-only", 4);
    var v3 := SetIf(v2, flags, "requested", 6);
    var v4 := SetIf(v3, flags, "requested-secure", 36);
    var v5 := SetIf(v4, flags, "coherent", 37);
    var v6 := SetIf(v5, flags, "virtualized", 38);
    assert AccessFlagsValue(flags) == v6;
    if k <= 6 {
      assert Bit(v6, k) == Bit(v3, k);
    } else {
      assert Bit(v3, k) == 0;
    }
  }

  /** The mode word `cpu_expand` writes after the cpu mask: secure sets
      bit 31, lockstep bit 30, and an exception level bits 0 and 1. A
      mode given as an empty dictionary is an empty map. */
  function ModeMask(mode: map<string, bool>): nat
  {
    var m0 := SetIf(0, mode, "secure", 31);
    var m1 := SetIf(m0, mode, "lockstep", 30);
    if On(mode, "el") then SetBit(SetBit(m1, 0), 1) else m1
  }

  /** Bit k of the mode word: 31 for secure, 30 for lockstep, 0 and 1 for
      an exception level, and nothing else. */
  lemma ModeMaskBits(mode: map<string, bool>, k: nat)
    ensures Bit(ModeMask(mode), k) == 1
            <==> (k == 31 && On(mode, "secure")) || (k == 30 && On(mode, "lockstep"))
                 || (k <= 1 && On(mode, "el"))
  {
    ZeroBit(k);
  }

  // ---------------------------------------------------------------------
  // expand_cdo_flags_bits

  /** The properties of a flags node: each name with its cells, an empty
      property holding no cells. */
  type Props = map<string, seq<int>>

  /** The node a flag is read from: the flags node when it has the
      property, else the default flags node when that has it. */
  function Chosen(flags: Props, defaults: Props, key: string): (r: Option<seq<int>>)
    ensures r.Some? <==> key in flags || key in defaults
    ensures key in flags ==> r == Some(flags[key])
  {
    if key in flags then Some(flags[key])
    else if key in defaults then Some(defaults[key])
    else None
  }

  /** `propval(key) != ['']`: the property is there with a value. */
  predicate Present(props: Props, key: string)
  {
    key in props && props[key] != []
  }

  /** The keys of the first word, in order, and their bits. */
  const FIRST_KEYWORDS: seq<(string, nat)> := [("allow-secure", 2), ("read-only", 4), ("requested", 6)]

  /** The keys of the third word, in order, and their bits. */
  const THIRD_KEYWORDS: seq<(string, nat)> := [
    ("access", 0), ("context", 1), ("wakeup", 2), ("unusable", 3),
    ("requested-secure", 4), ("coherent", 5), ("virtualized", 6)]

  /** The first word while its keys are read, with the two remembered
      flags `allow_sec` and `read_only`. */
  datatype FirstState = FirstState(w: nat, allowSec: bool, readOnly: bool)

  /** One key of the first word: a value of exactly [1] clears the bit of
      allow-secure or read-only and remembers it, and sets the bit of
      requested. */
  function FirstStep(st: FirstState, key: string, bit: nat, flags: Props, defaults: Props): FirstState
  {
    match Chosen(flags, defaults, key)
    case None => st
    case Some(v) =>
      if v != [1] then st
      else if key == "allow-secure" then FirstState(ClearBit(st.w, bit), true, st.readOnly)
      else if key == "read-only" then FirstState(ClearBit(st.w, bit), st.allowSec, true)
      else st.(w := SetBit(st.w, bit))
  }

  /** The first n keys of the first word. */
  function FirstFold(flags: Props, defaults: Props, w: nat, n: nat): FirstState
    requires n <= |FIRST_KEYWORDS|
  {
    if n == 0 then FirstState(w, false, false)
    else FirstStep(FirstFold(flags, defaults, w, n - 1), FIRST_KEYWORDS[n - 1].0, FIRST_KEYWORDS[n - 1].1, flags, defaults)
  }

  /** After the keys: the bits of allow-secure and read-only are raised
      unless their flag was given as [1], and a timeshare property sets
      bits 0 and 1. */
  function FirstFinish(st: FirstState, flags: Props): nat
  {
    var w1 := if !st.allowSec then SetBit(st.w, 2) else st.w;
    var w2 := if !st.readOnly then SetBit(w1, 4) else w1;
    if Present(flags, "timeshare") then Or(w2, 3) else w2
  }

  /** The first word `expand_cdo_flags_bits_first_word` leaves, from the
      word w it starts with. */
  function FirstWord(flags: Props, defaults: Props, w: nat): nat
  {
    FirstFinish(FirstFold(flags, defaults, w, 3), flags)
  }

  /** `expand_cdo_flags_bits_first_word(flags_node, ref_flags,
      default_flags_node)`: updates the first word in place. */
  method ExpandFirstWord(flags: Props, refFlags: array<nat>, defaults: Props)
    requires refFlags.Length == 4
    modifies refFlags
    ensures refFlags[0] == FirstWord(flags, defaults, old(refFlags[0]))
    ensures refFlags[1..] == old(refFlags[1..])
  {
    ghost var w := refFlags[0];
    var allowSec := false;
    var readOnly := false;
    var i := 0;
    while i < |FIRST_KEYWORDS|
      invariant i <= |FIRST_KEYWORDS|
      invariant FirstState(refFlags[0], allowSec, readOnly) == FirstFold(flags, defaults, w, i)
      invariant refFlags[1..] == old(refFlags[1..])
    {
      var key := FIRST_KEYWORDS[i].0;
      var bit := FIRST_KEYWORDS[i].1;
      var node := if key in flags then Some(flags) else if key in defaults then Some(defaults) else None;
      if node.Some? && key in node.value && node.value[key] == [1] {
        if key == "allow-secure" || key == "read-only" {
          refFlags[0] := ClearBit(refFlags[0], bit);
          if key == "allow-secure" {
            allowSec := true;
          } else {
            readOnly := true;
          }
          i := i + 1;
          continue;
        }
        refFlags[0] := SetBit(refFlags[0], bit);
      }
      i := i + 1;
    }
    if !allowSec {
      refFlags[0] := SetBit(refFlags[0], 2);
    }
    if !readOnly {
      refFlags[0] := SetBit(refFlags[0], 4);
    }
    if Present(flags, "timeshare") {
      refFlags[0] := Or(refFlags[0], 3);
    }
  }

  /** One key of the third word: a value other than [0] sets the key's
      bit, requested-secure only when the first word has the requested
      bit. */
  function ThirdStep(w2: nat, key: string, bit: nat, flags: Props, defaults: Props, w0: nat): nat
  {
    match Chosen(flags, defaults, key)
    case None => w2
    case Some(v) =>
      if v == [0] then w2
      else if key == "requested-secure" && Bit(w0, 6) == 0 then w2
      else SetBit(w2, bit)
  }

  /** The first n keys of the third word. */
  function ThirdFold(flags: Props, defaults: Props, w0: nat, w2: nat, n: nat): nat
    requires n <= |THIRD_KEYWORDS|
  {
    if n == 0 then w2
    else ThirdStep(ThirdFold(flags, defaults, w0, w2, n - 1), THIRD_KEYWORDS[n - 1].0, THIRD_KEYWORDS[n - 1].1, flags, defaults, w0)
  }

  /** `expand_cdo_flags_bits_third_word`, with the check of the first
      word's requested bit reading that bit (bit 6). */
  method ExpandThirdWord(flags: Props, refFlags: array<nat>, defaults: Props)
    requires refFlags.Length == 4
    modifies refFlags
    ensures refFlags[2] == ThirdFold(flags, defaults, old(refFlags[0]), old(refFlags[2]), 7)
    ensures refFlags[0] == old(refFlags[0]) && refFlags[1] == old(refFlags[1]) && refFlags[3] == old(refFlags[3])
  {
    var i := 0;
    while i < |THIRD_KEYWORDS|
      invariant i <= |THIRD_KEYWORDS|
      invariant refFlags[2] == ThirdFold(flags, defaults, old(refFlags[0]), old(refFlags[2]), i)
      invariant refFlags[0] == old(refFlags[0]) && refFlags[1] == old(refFlags[1]) && refFlags[3] == old(refFlags[3])
    {
      var key := THIRD_KEYWORDS[i].0;
      var bit := THIRD_KEYWORDS[i].1;
      var node := if key in flags then Some(flags) else if key in defaults then Some(defaults) else None;
      if node.Some? && node.value[key] != [0] {
        if key == "requested-secure" && !CheckBitSet(refFlags[0], 6) {
          CheckBitSetMeans(refFlags[0], 6);
          i := i + 1;
          continue;
        }
        CheckBitSetMeans(refFlags[0], 6);
        refFlags[2] := SetBit(refFlags[2], bit);
      }
      i := i + 1;
    }
  }

  /** The fourth word: the qos property of the flags node, else that of
      the default flags node, else 0. */
  datatype Qos = NoQos | QosValue(cells: seq<int>)

  function QosOf(flags: Props, defaults: Props): Qos
  {
    if Present(flags, "qos") then QosValue(flags["qos"])
    else if Present(defaults, "qos") then QosValue(defaults["qos"])
    else NoQos
  }

  /** The four words of a flag descriptor. */
  datatype CdoFlags = CdoFlags(w0: nat, w1: nat, w2: nat, qos: Qos)

  /** What `expand_cdo_flags_bits` computes. */
  function CdoFlagsOf(flags: Props, defaults: Props): CdoFlags
  {
    var w0 := FirstWord(flags, defaults, 0);
    CdoFlags(w0, 0xFFFFF, ThirdFold(flags, defaults, w0, 0, 7), QosOf(flags, defaults))
  }

  /** `expand_cdo_flags_bits(flags_node, default_flags_node)`: four words
      from [0, 0, 0, 0], the first and third filled in place, the second
      0xfffff and the fourth the qos. */
  method ExpandCdoFlagsBits(flags: Props, defaults: Props) returns (r: CdoFlags)
    ensures r == CdoFlagsOf(flags, defaults)
    ensures r.w1 == 0xFFFFF
  {
    var refFlags := new nat[4](_ => 0);
    ExpandFirstWord(flags, refFlags, defaults);
    refFlags[1] := 0xFFFFF;
    ExpandThirdWord(flags, refFlags, defaults);
    var qos := NoQos;
    if Present(flags, "qos") {
      qos := QosValue(flags["qos"]);
    } else if Present(defaults, "qos") {
      qos := QosValue(defaults["qos"]);
    }
    r := CdoFlags(refFlags[0], refFlags[1], refFlags[2], qos);
  }

  lemma FirstTable()
    ensures |FIRST_KEYWORDS| == 3
    ensures FIRST_KEYWORDS[0] == ("allow-secure", 2) && FIRST_KEYWORDS[1] == ("read-only", 4)
    ensures FIRST_KEYWORDS[2] == ("requested", 6)
  {
  }

  /** Bits 0 and 1 of `w | 3` are set and the others are w's. */
  lemma OrThree(w: nat, k: nat)
    ensures Bit(Or(w, 3), k) == if k <= 1 then 1 else Bit(w, k)
  {
    OrBit(w, 3, k);
    LowMaskBits(2, k);
    assert Pow2(2) - 1 == 3;
  }

  /** The first word, from 0: bits 0 and 1 for timeshare, bit 2 unless
      allow-secure is [1], bit 4 unless read-only is [1], bit 6 when
      requested is [1], and nothing else. */
  lemma FirstWordBits(flags: Props, defaults: Props, k: nat)
    ensures Bit(FirstWord(flags, defaults, 0), k) == 1
            <==> (k <= 1 && Present(flags, "timeshare"))
                 || (k == 2 && Chosen(flags, defaults, "allow-secure") != Some([1]))
                 || (k == 4 && Chosen(flags, defaults, "read-only") != Some([1]))
                 || (k == 6 && Chosen(flags, defaults, "requested") == Some([1]))
  {
    FirstTable();
    ZeroBit(k);
    var s1 := FirstFold(flags, defaults, 0, 1);
    var s2 := FirstFold(flags, defaults, 0, 2);
    var s3 := FirstFold(flags, defaults, 0, 3);
    assert FirstFold(flags, defaults, 0, 0) == FirstState(0, false, false);
    assert FIRST_KEYWORDS[0].0 == "allow-secure" && FIRST_KEYWORDS[0].1 == 2;
    assert s1 == FirstStep(FirstState(0, false, false), "allow-secure", 2, flags, defaults);
    assert s2 == FirstStep(s1, "read-only", 4, flags, defaults);
    assert s3 == FirstStep(s2, "requested", 6, flags, defaults);
    assert s3.allowSec <==> Chosen(flags, defaults, "allow-secure") == Some([1]);
    assert s3.readOnly <==> Chosen(flags, defaults, "read-only") == Some([1]);
    assert Bit(s3.w, k) == 1 <==> k == 6 && Chosen(flags, defaults, "requested") == Some([1]);
    var w1 := if !s3.allowSec then SetBit(s3.w, 2) else s3.w;
    var w2 := if !s3.readOnly then SetBit(w1, 4) else w1;
    if Present(flags, "timeshare") {
      OrThree(w2, k);
    }
  }

  lemma ThirdTable()
    ensures |THIRD_KEYWORDS| == 7
    ensures forall i | 0 <= i < 7 :: THIRD_KEYWORDS[i].1 == i
  {
  }

  /** Whether the key of third-word bit k counts: present with a value
      other than [0], and for requested-secure the requested bit of the
      first word set too. */
  predicate ThirdOn(flags: Props, defaults: Props, w0: nat, k: nat)
    requires k < |THIRD_KEYWORDS|
  {
    var c := Chosen(flags, defaults, THIRD_KEYWORDS[k].0);
    c.Some? && c.value != [0] && (THIRD_KEYWORDS[k].0 == "requested-secure" ==> Bit(w0, 6) == 1)
  }

  lemma {:induction false} ThirdFoldBits(flags: Props, defaults: Props, w0: nat, w2: nat, n: nat, k: nat)
    requires n <= 7
    ensures Bit(ThirdFold(flags, defaults, w0, w2, n), k) == 1
            <==> Bit(w2, k) == 1 || (k < n && ThirdOn(flags, defaults, w0, k))
  {
    ThirdTable();
    if n > 0 {
      ThirdFoldBits(flags, defaults, w0, w2, n - 1, k);
    }
  }

  /** The third word, from 0: bit k for the k-th key (access, context,
      wakeup, unusable, requested-secure, coherent, virtualized) when it
      counts, and nothing else. */
  lemma ThirdWordBits(flags: Props, defaults: Props, w0: nat, k: nat)
    ensures Bit(ThirdFold(flags, defaults, w0, 0, 7), k) == 1 <==> k < 7 && ThirdOn(flags, defaults, w0, k)
  {
    ThirdFoldBits(flags, defaults, w0, 0, 7, k);
    ZeroBit(k);
  }

  /** requested-secure is only ever raised together with requested. */
  lemma RequestedSecureNeedsRequested(flags: Props, defaults: Props)
    ensures Bit(CdoFlagsOf(flags, defaults).w2, 4) == 1 ==> Bit(CdoFlagsOf(flags, defaults).w0, 6) == 1
    ensures Bit(CdoFlagsOf(flags, defaults).w0, 6) == 1 <==> Chosen(flags, defaults, "requested") == Some([1])
  {
    var w0 := FirstWord(flags, defaults, 0);
    ThirdWordBits(flags, defaults, w0, 4);
    ThirdTable();
    assert THIRD_KEYWORDS[4].0 == "requested-secure";
    FirstWordBits(flags, defaults, 6);
  }

  // ---------------------------------------------------------------------
  // The third word as the source has it

  /** One key of `expand_cdo_flags_bits_third_word` as written: the
      requested-secure check reads `first_keywords`, a name local to the
      first-word function, so reaching it is a NameError. */
  function ThirdStepAsWritten(w2: nat, key: string, bit: nat, flags: Props, defaults: Props): Result<nat>
  {
    match Chosen(flags, defaults, key)
    case None => Ok(w2)
    case Some(v) =>
      if v == [0] then Ok(w2)
      else if key == "requested-secure" then Err(NameError)
      else Ok(SetBit(w2, bit))
  }

  function ThirdFoldAsWritten(flags: Props, defaults: Props, w2: nat, n: nat): Result<nat>
    requires n <= |THIRD_KEYWORDS|
  {
    if n == 0 then Ok(w2)
    else
      match ThirdFoldAsWritten(flags, defaults, w2, n - 1)
      case Err(e) => Err(e)
      case Ok(w) => ThirdStepAsWritten(w, THIRD_KEYWORDS[n - 1].0, THIRD_KEYWORDS[n - 1].1, flags, defaults)
  }

  /** `expand_cdo_flags_bits` as written. */
  function ExpandCdoFlagsBitsAsWritten(flags: Props, defaults: Props): Result<CdoFlags>
  {
    var w0 := FirstWord(flags, defaults, 0);
    match ThirdFoldAsWritten(flags, defaults, 0, 7)
    case Err(e) => Err(e)
    case Ok(w2) => Ok(CdoFlags(w0, 0xFFFFF, w2, QosOf(flags, defaults)))
  }

  lemma {:induction false} ThirdFoldAsWrittenAgrees(flags: Props, defaults: Props, w0: nat, w2: nat, n: nat)
    requires n <= 7
    requires n > 4 ==> !(Chosen(flags, defaults, "requested-secure").Some?
                         && Chosen(flags, defaults, "requested-secure").value != [0])
    ensures ThirdFoldAsWritten(flags, defaults, w2, n) == Ok(ThirdFold(flags, defaults, w0, w2, n))
  {
    ThirdTable();
    if n > 0 {
      ThirdFoldAsWrittenAgrees(flags, defaults, w0, w2, n - 1);
      assert n - 1 == 4 ==> THIRD_KEYWORDS[n - 1].0 == "requested-secure";
      assert n - 1 != 4 ==> THIRD_KEYWORDS[n - 1].0 != "requested-secure";
    }
  }

  lemma {:induction false} ThirdFoldAsWrittenFails(flags: Props, defaults: Props, w2: nat, n: nat)
    requires 5 <= n <= 7
    requires Chosen(flags, defaults, "requested-secure").Some?
    requires Chosen(flags, defaults, "requested-secure").value != [0]
    ensures ThirdFoldAsWritten(flags, defaults, w2, n) == Err(NameError)
  {
    ThirdTable();
    if n > 5 {
      ThirdFoldAsWrittenFails(flags, defaults, w2, n - 1);
    } else {
      ThirdFoldAsWrittenAgrees(flags, defaults, 0, w2, 4);
      assert THIRD_KEYWORDS[4].0 == "requested-secure";
    }
  }

  /** As written, the descriptor fails with a NameError exactly when
      requested-secure is given with a value other than [0]; otherwise it
      is the corrected descriptor. */
  lemma CdoFlagsAsWritten(flags: Props, defaults: Props)
    ensures var c := Chosen(flags, defaults, "requested-secure");
      ExpandCdoFlagsBitsAsWritten(flags, defaults)
        == if c.Some? && c.value != [0] then Err(NameError) else Ok(CdoFlagsOf(flags, defaults))
  {
    var c := Chosen(flags, defaults, "requested-secure");
    if c.Some? && c.value != [0] {
      ThirdFoldAsWrittenFails(flags, defaults, 0, 7);
    } else {
      ThirdFoldAsWrittenAgrees(flags, defaults, FirstWord(flags, defaults, 0), 0, 7);
    }
  }

  /** A flags node with `requested` and `requested-secure` both set: the
      source raises a NameError where the descriptor should carry bit 4
      of the third word. */
  lemma RequestedSecureExample(flags: Props, defaults: Props)
    requires flags == map["requested" := [1], "requested-secure" := [1]] && defaults == map[]
    ensures ExpandCdoFlagsBitsAsWritten(flags, defaults) == Err(NameError)
    ensures Bit(CdoFlagsOf(flags, defaults).w2, 4) == 1
  {
    CdoFlagsAsWritten(flags, defaults);
    var w0 := FirstWord(flags, defaults, 0);
    FirstWordBits(flags, defaults, 6);
    ThirdWordBits(flags, defaults, w0, 4);
    ThirdTable();
    assert THIRD_KEYWORDS[4].0 == "requested-secure";
  }
}
