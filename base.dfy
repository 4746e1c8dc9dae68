/** Codec helpers of lopper/base.py: guessing the format of a raw property,
    the string test behind that guess, big-endian cell and NUL-separated string
    encodings, their compound decoding, devicetree literal parsing, phandle
    label sanitising and the default phandle descriptor table. */
module Base {
  import opened Common

  /** The formats `property_type_guess` can return (LopperFmt). */
  datatype Fmt = EMPTY | STRING | UINT8 | UINT32

  // ---------------------------------------------------------------- bytes

  /** A byte of Python's `string.printable`. */
  predicate Printable(b: byte)
  {
    (0x20 <= b <= 0x7e) || (9 <= b <= 13)
  }

  predicate LineBreak(b: byte)
  {
    b == 13 || b == 10
  }

  /** A byte the inner walk of `string_test` steps over. */
  predicate Plain(b: byte)
  {
    b != 0 && Printable(b) && !LineBreak(b)
  }

  /** A UTF-8 left or right double quotation mark starts at i. */
  predicate CurlyQuoteAt(p: seq<byte>, i: nat)
  {
    i + 3 <= |p| && p[i] == 0xe2 && p[i + 1] == 0x80 && (p[i + 2] == 0x9c || p[i + 2] == 0x9d)
  }

  predicate NulTerminated(p: seq<byte>)
  {
    |p| > 0 && p[|p| - 1] == 0
  }

  /** End of the run of plain bytes that starts at i. */
  function PlainRunEnd(p: seq<byte>, i: nat): (j: nat)
    requires i <= |p|
    ensures i <= j <= |p|
    ensures forall k :: i <= k < j ==> Plain(p[k])
    ensures j < |p| ==> !Plain(p[j])
    decreases |p| - i
  {
    if i < |p| && Plain(p[i]) then PlainRunEnd(p, i + 1) else i
  }

  lemma {:induction false} PlainRunEndUnique(p: seq<byte>, i: nat, j: nat)
    requires i <= j <= |p|
    requires forall k :: i <= k < j ==> Plain(p[k])
    requires j < |p| ==> !Plain(p[j])
    ensures PlainRunEnd(p, i) == j
    decreases j - i
  {
    if i < j {
      PlainRunEndUnique(p, i + 1, j);
    }
  }

  lemma PlainRunStops(p: seq<byte>, i: nat)
    requires NulTerminated(p) && i < |p|
    ensures PlainRunEnd(p, i) < |p|
  {
    assert !Plain(p[|p| - 1]);
  }

  /** The segment walk of `string_test` from byte i on: runs of plain bytes
      end in a NUL (a non-empty string), a line break (when multi-line text
      is allowed) or a curly quote that is skipped. */
  predicate SegmentsFrom(p: seq<byte>, i: nat, multiline: bool)
    requires NulTerminated(p) && i <= |p|
    decreases |p| - i
  {
    if i == |p| then true
    else
      PlainRunStops(p, i);
      var j := PlainRunEnd(p, i);
      if LineBreak(p[j]) && multiline then SegmentsFrom(p, j + 1, multiline)
      else if p[j] != 0 || j == i then
        j + 3 < |p| && CurlyQuoteAt(p, j) && SegmentsFrom(p, j + 3, multiline)
      else SegmentsFrom(p, j + 1, multiline)
  }

  /** What `string_test` accepts. */
  predicate IsStringBytes(p: seq<byte>, multiline: bool)
  {
    NulTerminated(p) && SegmentsFrom(p, 0, multiline)
  }

  /** `string_test`: the byte-index walk over a property. */
  method StringTest(p: seq<byte>, allowMultiline: bool) returns (r: bool)
    ensures r == IsStringBytes(p, allowMultiline)
    ensures r ==> |p| > 0 && p[|p| - 1] == 0
  {
    if |p| == 0 || p[|p| - 1] != 0 {
      return false;
    }
    var b := 0;
    while b < |p|
      invariant 0 <= b <= |p|
      invariant SegmentsFrom(p, b, allowMultiline) == SegmentsFrom(p, 0, allowMultiline)
      decreases |p| - b
    {
      var bi := b;
      while b < |p| && p[b] != 0 && Printable(p[b]) && !LineBreak(p[b])
        invariant bi <= b <= |p|
        invariant forall k :: bi <= k < b ==> Plain(p[k])
        decreases |p| - b
      {
        b := b + 1;
      }
      PlainRunEndUnique(p, bi, b);
      PlainRunStops(p, bi);
      if LineBreak(p[b]) && allowMultiline {
        b := b + 1;
        continue;
      }
      if p[b] != 0 || b == bi {
        if b + 3 < |p| && CurlyQuoteAt(p, b) {
          b := b + 3;
          continue;
        }
        return false;
      }
      b := b + 1;
    }
    return true;
  }

  // ---------------------------------------------------------------- UTF-8

  predicate Continuation(b: byte)
  {
    0x80 <= b <= 0xbf
  }

  /** One strictly decoded UTF-8 character at the head of bs and its length. */
  function Utf8Char(bs: seq<byte>): (r: Option<(char, nat)>)
    requires |bs| > 0
    ensures r.Some? ==> 1 <= r.value.1 <= |bs| && r.value.1 <= 4
  {
    var b0 := bs[0] as int;
    if b0 < 0x80 then Some((b0 as char, 1))
    else if 0xc2 <= b0 <= 0xdf && |bs| >= 2 && Continuation(bs[1]) then
      Some((((b0 - 0xc0) * 64 + (bs[1] as int - 0x80)) as char, 2))
    else if 0xe0 <= b0 <= 0xef && |bs| >= 3 && Continuation(bs[1]) && Continuation(bs[2])
            && (b0 != 0xe0 || bs[1] >= 0xa0) && (b0 != 0xed || bs[1] < 0xa0) then
      Some((((b0 - 0xe0) * 4096 + (bs[1] as int - 0x80) * 64 + (bs[2] as int - 0x80)) as char, 3))
    else if 0xf0 <= b0 <= 0xf4 && |bs| >= 4 && Continuation(bs[1]) && Continuation(bs[2])
            && Continuation(bs[3]) && (b0 != 0xf0 || bs[1] >= 0x90) && (b0 != 0xf4 || bs[1] < 0x90) then
      Some((((b0 - 0xf0) * 262144 + (bs[1] as int - 0x80) * 4096 + (bs[2] as int - 0x80) * 64
             + (bs[3] as int - 0x80)) as char, 4))
    else None
  }

  /** Python's strict `bytes.decode('utf-8')`. */
  function Utf8Decode(bs: seq<byte>): Option<string>
    decreases |bs|
  {
    if |bs| == 0 then Some("")
    else
      match Utf8Char(bs)
      case None => None
      case Some(cn) =>
        match Utf8Decode(bs[cn.1..])
        case None => None
        case Some(rest) => Some([cn.0] + rest)
  }

  /** Python's `str.encode()` (UTF-8) of one character. */
  function Utf8EncodeChar(c: char): (r: seq<byte>)
    ensures 1 <= |r| <= 4
    ensures c as int < 0x80 ==> r == [c as int]
  {
    var v := c as int;
    if v < 0x80 then [v]
    else if v < 0x800 then [0xc0 + v / 64, 0x80 + v % 64]
    else if v < 0x10000 then [0xe0 + v / 64 / 64, 0x80 + (v / 64) % 64, 0x80 + v % 64]
    else [0xf0 + v / 64 / 64 / 64, 0x80 + (v / 64 / 64) % 64, 0x80 + (v / 64) % 64, 0x80 + v % 64]
  }

  function Utf8Encode(s: string): seq<byte>
  {
    if |s| == 0 then [] else Utf8EncodeChar(s[0]) + Utf8Encode(s[1..])
  }

  lemma Utf8CharOfEncoded(c: char, rest: seq<byte>)
    ensures Utf8Char(Utf8EncodeChar(c) + rest) == Some((c, |Utf8EncodeChar(c)|))
  {
    var v := c as int;
    var bs := Utf8EncodeChar(c) + rest;
    if v < 0x80 {
    } else if v < 0x800 {
      Utf8Two(v);
    } else if v < 0x10000 {
      assert v < 0xd800 || v >= 0xe000;
      Utf8Three(v);
    } else {
      Utf8Four(v);
    }
  }

  lemma Utf8Two(v: int)
    requires 0x80 <= v < 0x800
    ensures 0xc2 <= 0xc0 + v / 64 <= 0xdf && 0x80 <= 0x80 + v % 64 <= 0xbf
    ensures (v / 64) * 64 + v % 64 == v
  {
  }

  lemma Utf8Three(v: int)
    requires 0x800 <= v < 0x10000 && (v < 0xd800 || v >= 0xe000)
    ensures 0xe0 <= 0xe0 + v / 64 / 64 <= 0xef
    ensures Continuation(0x80 + (v / 64) % 64) && Continuation(0x80 + v % 64)
    ensures v / 64 / 64 != 0 || 0x80 + (v / 64) % 64 >= 0xa0
    ensures v / 64 / 64 != 0xd || 0x80 + (v / 64) % 64 < 0xa0
    ensures (v / 64 / 64) * 4096 + ((v / 64) % 64) * 64 + v % 64 == v
  {
    var q1 := v / 64;
    var q2 := q1 / 64;
    assert v == 64 * q1 + v % 64;
    assert q1 == 64 * q2 + q1 % 64;
  }

  lemma Utf8Four(v: int)
    requires 0x10000 <= v < 0x110000
    ensures 0xf0 <= 0xf0 + v / 64 / 64 / 64 <= 0xf4
    ensures Continuation(0x80 + (v / 64 / 64) % 64) && Continuation(0x80 + (v / 64) % 64)
    ensures Continuation(0x80 + v % 64)
    ensures v / 64 / 64 / 64 != 0 || 0x80 + (v / 64 / 64) % 64 >= 0x90
    ensures v / 64 / 64 / 64 != 4 || 0x80 + (v / 64 / 64) % 64 < 0x90
    ensures (v / 64 / 64 / 64) * 262144 + ((v / 64 / 64) % 64) * 4096 + ((v / 64) % 64) * 64 + v % 64 == v
  {
    var q1 := v / 64;
    var q2 := q1 / 64;
    var q3 := q2 / 64;
    assert v == 64 * q1 + v % 64;
    assert q1 == 64 * q2 + q1 % 64;
    assert q2 == 64 * q3 + q2 % 64;
  }

  /** Decoding what `str.encode()` produced gives the string back. */
  lemma {:induction false} Utf8RoundTrip(s: string)
    ensures Utf8Decode(Utf8Encode(s)) == Some(s)
    decreases |s|
  {
    if |s| > 0 {
      var e, rest := Utf8EncodeChar(s[0]), Utf8Encode(s[1..]);
      var bs := e + rest;
      assert Utf8Encode(s) == bs;
      Utf8CharOfEncoded(s[0], rest);
      assert bs[|e|..] == rest;
      Utf8RoundTrip(s[1..]);
      assert Utf8Decode(bs) == Some([s[0]] + s[1..]);
      assert [s[0]] + s[1..] == s;
    }
  }

  // ------------------------------------------------------- format guessing

  /** The string branch of `property_type_guess`: a non-NUL first byte, more
      than one byte, a NUL last byte, valid UTF-8 before it and a passing
      `string_test`. */
  predicate LooksLikeString(p: seq<byte>)
  {
    |p| > 1 && p[0] != 0 && p[|p| - 1] == 0
    && Utf8Decode(p[..|p| - 1]).Some? && IsStringBytes(p, true)
  }

  /** `property_type_guess`. */
  function PropertyTypeGuess(p: seq<byte>): (r: Fmt)
    ensures r == EMPTY <==> |p| == 0
    ensures r == STRING <==> LooksLikeString(p)
    ensures r == UINT32 <==> |p| > 0 && |p| % 4 == 0 && !LooksLikeString(p)
    ensures r == UINT8 <==> |p| % 4 != 0 && !LooksLikeString(p)
  {
    if |p| == 0 then EMPTY
    else if LooksLikeString(p) then STRING
    else if |p| % 4 != 0 then UINT8
    else UINT32
  }

  // ------------------------------------------------------------ encoding

  /** `i.to_bytes(4, byteorder='big')`. */
  function Be4(v: Cell): (r: seq<byte>)
    ensures |r| == 4
  {
    var q1 := v / 256;
    var q2 := q1 / 256;
    var q3 := q2 / 256;
    [q3, q2 % 256, q1 % 256, v % 256]
  }

  /** `int.from_bytes(bs[o:o+4], 'big')`. */
  function Be4Value(bs: seq<byte>, o: nat): (v: nat)
    requires o + 4 <= |bs|
    ensures v < TWO32
  {
    bs[o] as int * 0x100_0000 + bs[o + 1] as int * 0x1_0000 + bs[o + 2] as int * 256 + bs[o + 3] as int
  }

  lemma Be4RoundTrip(v: Cell, rest: seq<byte>)
    ensures Be4Value(Be4(v) + rest, 0) == v
  {
    var q1 := v / 256;
    var q2 := q1 / 256;
    var q3 := q2 / 256;
    assert v == 256 * q1 + v % 256;
    assert q1 == 256 * q2 + q1 % 256;
    assert q2 == 256 * q3 + q2 % 256;
    var bs := Be4(v) + rest;
    assert bs[0] == q3 && bs[1] == q2 % 256 && bs[2] == q1 % 256 && bs[3] == v % 256;
  }

  /** A cell below 2^24 leaves the first byte zero. */
  lemma Be4Small(v: Cell)
    requires v < 0x100_0000
    ensures Be4(v)[0] == 0
  {
    var q1 := v / 256;
    var q2 := q1 / 256;
    assert q1 < 0x1_0000;
    assert q2 < 256;
  }

  function Be4All(values: seq<Cell>): (r: seq<byte>)
    ensures |r| == 4 * |values|
  {
    if |values| == 0 then [] else Be4(values[0]) + Be4All(values[1..])
  }

  lemma {:induction false} Be4AllAppend(values: seq<Cell>, v: Cell)
    ensures Be4All(values + [v]) == Be4All(values) + Be4(v)
  {
    if |values| == 0 {
      assert values + [v] == [v];
    } else {
      assert (values + [v])[1..] == values[1..] + [v];
      Be4AllAppend(values[1..], v);
    }
  }

  predicate AllCells(values: seq<int>)
  {
    forall i :: 0 <= i < |values| ==> 0 <= values[i] < TWO32
  }

  /** `encode_byte_array`: four big-endian bytes per value; `to_bytes` raises
      OverflowError for a value that does not fit in 32 unsigned bits. */
  method EncodeByteArray(values: seq<int>) returns (r: Result<seq<byte>>)
    ensures r.Ok? <==> AllCells(values)
    ensures r.Ok? ==> |r.value| == 4 * |values|
    ensures r.Ok? ==> r.value == Be4All(values)
    ensures r.Err? ==> r.error == OverflowError
  {
    var barray: seq<byte> := [];
    var k := 0;
    while k < |values|
      invariant 0 <= k <= |values|
      invariant AllCells(values[..k])
      invariant barray == Be4All(values[..k])
    {
      var i := values[k];
      if !(0 <= i < TWO32) {
        return Err(OverflowError);
      }
      assert values[..k + 1] == values[..k] + [i];
      Be4AllAppend(values[..k], i);
      barray := barray + Be4(i);
      k := k + 1;
    }
    assert values[..k] == values;
    return Ok(barray);
  }

  /** The bytes `encode_byte_array_from_strings` produces for two or more
      strings: each one's UTF-8 encoding followed by a NUL. */
  function NulTerminatedAll(values: seq<string>): seq<byte>
  {
    if |values| == 0 then [] else Utf8Encode(values[0]) + [0] + NulTerminatedAll(values[1..])
  }

  lemma {:induction false} NulTerminatedAllAppend(values: seq<string>, v: string)
    ensures NulTerminatedAll(values + [v]) == NulTerminatedAll(values) + Utf8Encode(v) + [0]
  {
    if |values| == 0 {
      assert values + [v] == [v];
    } else {
      assert (values + [v])[1..] == values[1..] + [v];
      NulTerminatedAllAppend(values[1..], v);
    }
  }

  /** `encode_byte_array_from_strings`: several strings are each NUL
      terminated, a single string is encoded without a terminator, and an
      empty list raises IndexError (`values[0]`). */
  method EncodeByteArrayFromStrings(values: seq<string>) returns (r: Result<seq<byte>>)
    ensures |values| == 0 <==> r == Err(IndexError)
    ensures |values| == 1 ==> r == Ok(Utf8Encode(values[0]))
    ensures |values| > 1 ==> r == Ok(NulTerminatedAll(values))
  {
    if |values| == 0 {
      return Err(IndexError);
    }
    var barray: seq<byte> := [];
    if |values| > 1 {
      var k := 0;
      while k < |values|
        invariant 0 <= k <= |values|
        invariant barray == NulTerminatedAll(values[..k])
      {
        assert values[..k + 1] == values[..k] + [values[k]];
        NulTerminatedAllAppend(values[..k], values[k]);
        barray := barray + Utf8Encode(values[k]) + [0];
        k := k + 1;
      }
      assert values[..k] == values;
    } else {
      barray := Utf8Encode(values[0]);
    }
    return Ok(barray);
  }

  // ------------------------------------------------------------ decoding

  /** The numbers the compound decode reads: one per byte for UINT8, one
      big-endian word per four bytes for UINT32. */
  function Words(p: seq<byte>): (r: seq<PVal>)
    ensures |r| == |p| / 4
    ensures forall i :: 0 <= i < |r| ==> r[i] == Num(Be4Value(p, 4 * i))
  {
    seq(|p| / 4, i requires 0 <= i < |p| / 4 => Num(Be4Value(p, 4 * i)))
  }

  function AsStrs(ss: seq<string>): (r: seq<PVal>)
    ensures |r| == |ss|
    ensures forall i :: 0 <= i < |r| ==> r[i] == Str(ss[i])
  {
    seq(|ss|, i requires 0 <= i < |ss| => Str(ss[i]))
  }

  function AsNums(ns: seq<int>): (r: seq<PVal>)
    ensures |r| == |ns|
    ensures forall i :: 0 <= i < |r| ==> r[i] == Num(ns[i])
  {
    seq(|ns|, i requires 0 <= i < |ns| => Num(ns[i]))
  }

  /** What the compound, decimal decode of `property_value_decode` returns. */
  function DecodedValue(p: seq<byte>): seq<PVal>
  {
    match PropertyTypeGuess(p)
    case EMPTY => [Str("")]
    case STRING => AsStrs(SplitOn(Utf8Decode(p[..|p| - 1]).value, 0 as char))
    case UINT8 => AsNums(p)
    case UINT32 => Words(p)
  }

  /** `property_value_decode` in compound format with decimal encoding: the
      guessed format picks the decoding and the number loop steps one byte
      (UINT8) or one big-endian word (UINT32) at a time. */
  method PropertyValueDecode(p: seq<byte>) returns (val: seq<PVal>)
    ensures val == DecodedValue(p)
  {
    var guess := PropertyTypeGuess(p);
    if guess == EMPTY {
      return [Str("")];
    }
    if guess == STRING {
      return AsStrs(SplitOn(Utf8Decode(p[..|p| - 1]).value, 0 as char));
    }
    var size := if guess == UINT8 then 1 else 4;
    var numNums := |p| / size;
    var limit := numNums * size;
    assert size == 1 ==> limit == |p|;
    assert size == 4 ==> limit == 4 * (|p| / 4);
    var start, end := 0, size;
    val := [];
    while end <= limit
      invariant (size == 1 && start == |val| && limit == |p|)
             || (size == 4 && start == 4 * |val| && limit == 4 * (|p| / 4))
      invariant end == start + size && start <= limit
      invariant size == 1 ==> val == AsNums(p)[..|val|]
      invariant size == 4 ==> val == Words(p)[..|val|]
      decreases limit - start
    {
      var shortInt := if size == 1 then p[start] else Be4Value(p, start);
      val := val + [Num(shortInt)];
      start := start + size;
      end := end + size;
    }
    if size == 4 {
      assert |val| == |p| / 4;
      assert val == Words(p);
    } else {
      assert val == AsNums(p);
    }
  }

  // -------------------------------------------------------- round trips

  lemma {:induction false} WordsOfBe4All(values: seq<Cell>)
    ensures Words(Be4All(values)) == AsNums(values)
    decreases |values|
  {
    var p := Be4All(values);
    if |values| > 0 {
      WordsOfBe4All(values[1..]);
      var q := Be4All(values[1..]);
      assert p == Be4(values[0]) + q;
      forall i | 0 <= i < |values|
        ensures Words(p)[i] == Num(values[i])
      {
        if i == 0 {
          Be4RoundTrip(values[0], q);
        } else {
          assert Be4Value(p, 4 * i) == Be4Value(q, 4 * (i - 1));
          assert Words(q)[i - 1] == Num(values[i]);
        }
      }
    }
  }

  /** Cells encoded by `encode_byte_array` decode back to the same numbers,
      provided the first cell leaves the first byte zero (otherwise the
      bytes might pass for a string). */
  lemma CellsRoundTrip(values: seq<Cell>)
    requires |values| > 0 && values[0] < 0x100_0000
    ensures DecodedValue(Be4All(values)) == AsNums(values)
  {
    var p := Be4All(values);
    assert p == Be4(values[0]) + Be4All(values[1..]);
    Be4Small(values[0]);
    assert p[0] == 0;
    assert !LooksLikeString(p);
    MultipleOfFour(|values|);
    WordsOfBe4All(values);
  }

  lemma MultipleOfFour(n: nat)
    ensures (4 * n) % 4 == 0 && (4 * n) / 4 == n
  {
  }

  /** A string the encoder and the string test agree on: non-empty and made
      of printable ASCII characters other than line breaks. */
  predicate PlainText(s: string)
  {
    |s| > 0 && forall i :: 0 <= i < |s| ==> s[i] as int < 0x80 && Plain(s[i] as int)
  }

  lemma {:induction false} Utf8EncodeAscii(s: string)
    requires forall i :: 0 <= i < |s| ==> s[i] as int < 0x80
    ensures |Utf8Encode(s)| == |s|
    ensures forall i :: 0 <= i < |s| ==> Utf8Encode(s)[i] == s[i] as int
    decreases |s|
  {
    if |s| > 0 {
      Utf8EncodeAscii(s[1..]);
    }
  }

  lemma {:induction false} SegmentsOfEncoded(p: seq<byte>, i: nat, values: seq<string>)
    requires NulTerminated(p) && i <= |p|
    requires p[i..] == NulTerminatedAll(values)
    requires forall k :: 0 <= k < |values| ==> PlainText(values[k])
    ensures SegmentsFrom(p, i, true)
    decreases |values|
  {
    if |values| == 0 {
      assert i == |p|;
    } else {
      EncodedSegment(p, i, values);
      SegmentsOfEncoded(p, i + |values[0]| + 1, values[1..]);
    }
  }

  /** The first encoded string is a run of plain bytes ended by its NUL. */
  lemma EncodedSegment(p: seq<byte>, i: nat, values: seq<string>)
    requires NulTerminated(p) && i <= |p| && |values| > 0 && PlainText(values[0])
    requires p[i..] == NulTerminatedAll(values)
    ensures var j := i + |values[0]|;
      i < j < |p| && PlainRunEnd(p, i) == j && p[j] == 0 && p[j + 1..] == NulTerminatedAll(values[1..])
  {
    var v := values[0];
    Utf8EncodeAscii(v);
    var e := Utf8Encode(v);
    assert p[i..] == e + [0] + NulTerminatedAll(values[1..]);
    var j := i + |e|;
    forall k | i <= k < j
      ensures Plain(p[k])
    {
      assert p[k] == p[i..][k - i] == e[k - i];
    }
    assert p[j] == p[i..][|e|] == 0;
    PlainRunEndUnique(p, i, j);
    assert p[j + 1..] == p[i..][|e| + 1..];
  }

  lemma {:induction false} JoinOfNulTerminated(values: seq<string>)
    requires |values| > 0
    ensures NulTerminatedAll(values) == Utf8Encode(JoinWith(values, 0 as char)) + [0]
    decreases |values|
  {
    var nul := 0 as char;
    if |values| == 1 {
      assert NulTerminatedAll(values) == Utf8Encode(values[0]) + [0] + NulTerminatedAll([]);
    } else {
      var rest := JoinWith(values[1..], nul);
      JoinOfNulTerminated(values[1..]);
      assert JoinWith(values, nul) == values[0] + [nul] + rest;
      Utf8Concat(values[0] + [nul], rest);
      Utf8Concat(values[0], [nul]);
      assert Utf8Encode([nul]) == [0] by {
        assert Utf8Encode([nul]) == Utf8EncodeChar(nul) + Utf8Encode([]);
      }
      assert NulTerminatedAll(values) == Utf8Encode(values[0]) + [0] + NulTerminatedAll(values[1..]);
    }
  }

  lemma {:induction false} Utf8Concat(a: string, b: string)
    ensures Utf8Encode(a + b) == Utf8Encode(a) + Utf8Encode(b)
    decreases |a|
  {
    if |a| > 0 {
      assert (a + b)[1..] == a[1..] + b;
      Utf8Concat(a[1..], b);
    } else {
      assert a + b == b;
    }
  }

  /** Two or more plain strings encoded by `encode_byte_array_from_strings`
      pass `string_test`, are guessed STRING and decode back to the list. */
  lemma StringsRoundTrip(values: seq<string>)
    requires |values| > 1
    requires forall k :: 0 <= k < |values| ==> PlainText(values[k])
    ensures PropertyTypeGuess(NulTerminatedAll(values)) == STRING
    ensures DecodedValue(NulTerminatedAll(values)) == AsStrs(values)
  {
    var p := NulTerminatedAll(values);
    var joined := JoinWith(values, 0 as char);
    JoinOfNulTerminated(values);
    assert p[..|p| - 1] == Utf8Encode(joined);
    Utf8RoundTrip(joined);
    Utf8EncodeAscii(values[0]);
    assert p == Utf8Encode(values[0]) + [0] + NulTerminatedAll(values[1..]);
    assert p[0] == values[0][0] as int;
    assert p[0..] == p;
    SegmentsOfEncoded(p, 0, values);
    assert LooksLikeString(p);
    forall k | 0 <= k < |values|
      ensures 0 as char !in values[k]
    {
      assert forall i :: 0 <= i < |values[k]| ==> values[k][i] != 0 as char;
    }
    SplitJoin(values, 0 as char);
  }

  /** A single string is written without a terminator, so it never reads
      back as a string. */
  lemma SingleStringNotTerminated(v: string)
    requires PlainText(v)
    ensures PropertyTypeGuess(Utf8Encode(v)) != STRING
  {
    Utf8EncodeAscii(v);
  }

  // ------------------------------------------------ devicetree literals

  /** `re.sub` of '<' and '>' by nothing. */
  function RemoveAngles(s: string): (r: string)
    ensures '<' !in r && '>' !in r
  {
    if |s| == 0 then ""
    else if s[0] == '<' || s[0] == '>' then RemoveAngles(s[1..])
    else [s[0]] + RemoveAngles(s[1..])
  }

  lemma {:induction false} RemoveAnglesConcat(a: string, b: string)
    ensures RemoveAngles(a + b) == RemoveAngles(a) + RemoveAngles(b)
    decreases |a|
  {
    if |a| == 0 {
      assert a + b == b;
    } else {
      assert (a + b)[1..] == a[1..] + b;
      RemoveAnglesConcat(a[1..], b);
    }
  }

  lemma {:induction false} RemoveAnglesNone(a: string)
    requires '<' !in a && '>' !in a
    ensures RemoveAngles(a) == a
    decreases |a|
  {
    if |a| > 0 {
      RemoveAnglesNone(a[1..]);
      assert [a[0]] + a[1..] == a;
    }
  }

  predicate IsDigitIn(c: char, base: nat)
  {
    ('0' <= c <= '9' && (c as int - '0' as int) < base)
    || (base == 16 && (('a' <= c <= 'f') || ('A' <= c <= 'F')))
  }

  function DigitIn(c: char, base: nat): (d: nat)
    requires IsDigitIn(c, base)
    ensures d < base || base < 10
  {
    if '0' <= c <= '9' then c as int - '0' as int
    else if 'a' <= c <= 'f' then c as int - 'a' as int + 10
    else c as int - 'A' as int + 10
  }

  predicate AllDigitsIn(s: string, base: nat)
  {
    forall k :: 0 <= k < |s| ==> IsDigitIn(s[k], base)
  }

  function DigitsValue(s: string, base: nat): nat
    requires AllDigitsIn(s, base)
  {
    if |s| == 0 then 0 else base * DigitsValue(s[..|s| - 1], base) + DigitIn(s[|s| - 1], base)
  }

  lemma {:induction false} DecimalDigitsRoundTrip(n: nat)
    ensures AllDigitsIn(NatToDecimal(n), 10)
    ensures DigitsValue(NatToDecimal(n), 10) == n
    decreases n
  {
    var s := NatToDecimal(n);
    if n >= 10 {
      DecimalDigitsRoundTrip(n / 10);
      assert s[..|s| - 1] == NatToDecimal(n / 10);
    }
  }

  function StripWs(s: string): (r: string)
    decreases |s|
  {
    if |s| > 0 && IsSpace(s[0]) then StripWs(s[1..])
    else if |s| > 0 && IsSpace(s[|s| - 1]) then StripWs(s[..|s| - 1])
    else s
  }

  /** The digits of a stripped token after an optional sign and, for
      base 16, an optional 0x prefix (which one underscore may follow). */
  function DigitPart(u: string, base: nat): string
  {
    var body := if |u| > 0 && (u[0] == '-' || u[0] == '+') then u[1..] else u;
    if base == 16 && |body| >= 2 && body[0] == '0' && (body[1] == 'x' || body[1] == 'X') then
      (if |body| > 2 && body[2] == '_' then body[3..] else body[2..])
    else body
  }

  /** The value of digits of the base with single underscores between
      them; None for any other text, the empty one included. */
  function GroupedValue(d: string, base: nat): Option<nat>
    decreases |d|
  {
    if |d| == 0 || !IsDigitIn(d[|d| - 1], base) then None
    else if |d| == 1 then Some(DigitIn(d[0], base))
    else
      var front := if d[|d| - 2] == '_' then d[..|d| - 2] else d[..|d| - 1];
      match GroupedValue(front, base)
      case None => None
      case Some(v) => Some(base * v + DigitIn(d[|d| - 1], base))
  }

  /** Plain digits are read as their value. */
  lemma {:induction false} GroupedPlain(d: string, base: nat)
    requires |d| > 0 && AllDigitsIn(d, base)
    ensures GroupedValue(d, base) == Some(DigitsValue(d, base))
    decreases |d|
  {
    assert IsDigitIn(d[|d| - 1], base);
    if |d| > 1 {
      var front := d[..|d| - 1];
      assert IsDigitIn(d[|d| - 2], base) && front[|front| - 1] == d[|d| - 2];
      GroupedPlain(front, base);
    }
  }

  /** An underscore between two digit groups is skipped: `1_0` reads as
      10, while a leading, trailing or doubled underscore is refused. */
  lemma UnderscoreExamples()
    ensures GroupedValue("1_0", 10) == Some(10)
    ensures GroupedValue("_1", 10).None? && GroupedValue("1_", 10).None? && GroupedValue("1__0", 10).None?
  {
    assert "1_0"[..1] == "1";
    assert "1__0"[..2] == "1_";
    assert "_1"[..0] == "";
  }

  /** Python's `int(t, base)` for base 10 or 16: surrounding white space, an
      optional sign, for base 16 an optional 0x prefix, then digits of the
      base with single underscores between them. Python also takes
      non-ASCII digits, which no devicetree text holds. */
  function PyInt(t: string, base: nat): Option<int>
    requires base == 10 || base == 16
  {
    var u := StripWs(t);
    match GroupedValue(DigitPart(u, base), base)
    case None => None
    case Some(v) =>
      var n: int := v;
      Some(if |u| > 0 && u[0] == '-' then -n else n)
  }

  /** The token `1_0` reads as 10. */
  lemma UnderscoreToken()
    ensures PyInt("1_0", TokenBase("1_0")) == Some(10)
  {
    UnderscoreExamples();
    assert !Contains("1_0", "0x");
    assert StripWs("1_0") == "1_0";
  }

  /** `1_0` converts to the number 10. */
  lemma UnderscoreConvert()
    ensures Convert("1_0") == Ok([Num(10)])
  {
    UnderscoreToken();
    assert FindQuoted("1_0", 0) == [];
  }

  /** `<1_0>` converts to the one number 10. */
  lemma UnderscoreCells()
    ensures Convert("<1_0>") == Ok([Num(10)])
  {
    UnderscoreCellTokens();
    assert StartsWith("<1_0>", "<");
    assert AsNums([10]) == [Num(10)];
  }

  /** The one cell of `<1_0>` reads as 10. */
  lemma UnderscoreCellTokens()
    ensures ParseCells(CellTokens("<1_0>")) == Some([10])
  {
    UnderscoreToken();
    assert RemoveAngles("<1_0>") == "1_0";
    assert Word("1_0");
    SplitWsJoin(["1_0"]);
    assert JoinWith(["1_0"], ' ') == "1_0";
    var toks := ["1_0"];
    assert CellTokens("<1_0>") == toks;
    ParseCellsAppend([], "1_0");
    assert [] + toks == toks;
    assert ParseCells([]) == Some([]);
    assert ParseCells([]).value + [10] == [10];
  }

  /** The base `property_convert` picks for a token: 16 when "0x" occurs. */
  function TokenBase(t: string): nat
  {
    if Contains(t, "0x") then 16 else 10
  }

  /** All tokens of a cell list as integers, or None when one fails. */
  function ParseCells(tokens: seq<string>): (r: Option<seq<int>>)
    ensures r.Some? ==> |r.value| == |tokens|
  {
    if |tokens| == 0 then Some([])
    else
      match PyInt(tokens[0], TokenBase(tokens[0]))
      case None => None
      case Some(n) =>
        match ParseCells(tokens[1..])
        case None => None
        case Some(ns) => Some([n] + ns)
  }

  /** First position from k on that closes a quote q, as the lazy regex
      `.*?(?<!\\)(?P=quote)` finds it; `.` does not cross a newline. */
  function ClosingQuote(s: string, q: char, k: nat): (r: Option<nat>)
    requires 1 <= k <= |s|
    ensures r.Some? ==> k <= r.value < |s| && s[r.value] == q
    decreases |s| - k
  {
    if k == |s| then None
    else if s[k] == q && s[k - 1] != '\\' then Some(k)
    else if s[k] == '\n' then None
    else ClosingQuote(s, q, k + 1)
  }

  /** `findall` of the quoted-string regex, scanning from position i. */
  function FindQuoted(s: string, i: nat): seq<string>
    decreases |s| - i
  {
    if i >= |s| then []
    else if s[i] == '"' || s[i] == '\'' then
      match ClosingQuote(s, s[i], i + 1)
      case Some(j) => [s[i + 1..j]] + FindQuoted(s, j + 1)
      case None => FindQuoted(s, i + 1)
    else FindQuoted(s, i + 1)
  }

  /** The tokens of a `<...>` literal. */
  function CellTokens(s: string): seq<string>
  {
    SplitWs(RemoveAngles(s))
  }

  /** What `property_convert` returns; a cell that is not a number ends the
      program (`sys.exit`). */
  function Convert(s: string): Result<seq<PVal>>
  {
    if StartsWith(s, "<") then
      match ParseCells(CellTokens(s))
      case None => Err(SystemExit)
      case Some(ns) => Ok(AsNums(ns))
    else
      var strings := FindQuoted(s, 0);
      if |strings| > 1 then Ok(AsStrs(strings))
      else
        match PyInt(s, TokenBase(s))
        case Some(n) => Ok([Num(n)])
        case None => Ok([Str(s)])
  }

  /** `property_convert`: a `<...>` literal becomes its list of numbers, two
      or more quoted strings become that list of strings, anything else one
      number or the text itself. */
  method PropertyConvert(s: string) returns (r: Result<seq<PVal>>)
    ensures r == Convert(s)
  {
    if StartsWith(s, "<") {
      r := ConvertCells(CellTokens(s));
    } else {
      var strings := FindQuoted(s, 0);
      if |strings| > 1 {
        var retval := ConvertStrings(strings);
        r := Ok(retval);
      } else {
        var p := PyInt(s, TokenBase(s));
        if p.Some? {
          r := Ok([Num(p.value)]);
        } else {
          r := Ok([Str(s)]);
        }
      }
    }
  }

  /** The number loop of `property_convert`. */
  method ConvertCells(tokens: seq<string>) returns (r: Result<seq<PVal>>)
    ensures r == match ParseCells(tokens)
                 case None => Err(SystemExit)
                 case Some(ns) => Ok(AsNums(ns))
  {
    var retval: seq<PVal> := [];
    var k := 0;
    while k < |tokens|
      invariant 0 <= k <= |tokens|
      invariant ParseCells(tokens[..k]).Some?
      invariant retval == AsNums(ParseCells(tokens[..k]).value)
    {
      var n := tokens[k];
      var parsed := PyInt(n, TokenBase(n));
      ParseCellsAppend(tokens[..k], n);
      assert tokens[..k + 1] == tokens[..k] + [n];
      if parsed.None? {
        ParseCellsFails(tokens, k);
        return Err(SystemExit);
      }
      assert AsNums(ParseCells(tokens[..k]).value + [parsed.value])
        == AsNums(ParseCells(tokens[..k]).value) + [Num(parsed.value)];
      retval := retval + [Num(parsed.value)];
      k := k + 1;
    }
    assert tokens[..k] == tokens;
    return Ok(retval);
  }

  /** The string loop of `property_convert`. */
  method ConvertStrings(strings: seq<string>) returns (retval: seq<PVal>)
    ensures retval == AsStrs(strings)
  {
    retval := [];
    var k := 0;
    while k < |strings|
      invariant 0 <= k <= |strings|
      invariant retval == AsStrs(strings[..k])
    {
      assert AsStrs(strings[..k + 1]) == AsStrs(strings[..k]) + [Str(strings[k])];
      retval := retval + [Str(strings[k])];
      k := k + 1;
    }
    assert strings[..k] == strings;
  }

  lemma {:induction false} ParseCellsAppend(tokens: seq<string>, t: string)
    requires ParseCells(tokens).Some?
    ensures PyInt(t, TokenBase(t)).None? ==> ParseCells(tokens + [t]).None?
    ensures PyInt(t, TokenBase(t)).Some? ==>
      ParseCells(tokens + [t]) == Some(ParseCells(tokens).value + [PyInt(t, TokenBase(t)).value])
    decreases |tokens|
  {
    if |tokens| == 0 {
      assert tokens + [t] == [t];
      assert ([t])[1..] == [];
      assert ParseCells(tokens) == Some([]);
      if PyInt(t, TokenBase(t)).Some? {
        var n := PyInt(t, TokenBase(t)).value;
        assert ParseCells([t]) == Some([n] + []);
        assert [n] + [] == [] + [n];
      }
    } else {
      var u := tokens + [t];
      assert u[0] == tokens[0];
      assert u[1..] == tokens[1..] + [t];
      var n := PyInt(tokens[0], TokenBase(tokens[0])).value;
      var ns := ParseCells(tokens[1..]).value;
      assert ParseCells(tokens) == Some([n] + ns);
      ParseCellsAppend(tokens[1..], t);
      if PyInt(t, TokenBase(t)).Some? {
        assert ParseCells(u) == Some([n] + (ns + [PyInt(t, TokenBase(t)).value]));
        assert [n] + (ns + [PyInt(t, TokenBase(t)).value]) == [n] + ns + [PyInt(t, TokenBase(t)).value];
      }
    }
  }

  lemma {:induction false} ParseCellsFails(tokens: seq<string>, k: nat)
    requires k < |tokens| && PyInt(tokens[k], TokenBase(tokens[k])).None?
    ensures ParseCells(tokens).None?
    decreases k
  {
    if k > 0 {
      ParseCellsFails(tokens[1..], k - 1);
    }
  }

  lemma {:induction false} NoXNoHex(s: string)
    requires forall k :: 0 <= k < |s| ==> '0' <= s[k] <= '9'
    ensures !Contains(s, "0x")
    decreases |s|
  {
    if |s| >= 2 {
      assert s[..2] != "0x" by { assert s[1] != 'x'; }
    }
    if |s| > 0 {
      NoXNoHex(s[1..]);
    }
  }

  function Decimals(values: seq<nat>): (r: seq<string>)
    ensures |r| == |values|
    ensures forall k :: 0 <= k < |r| ==> r[k] == NatToDecimal(values[k])
  {
    seq(|values|, k requires 0 <= k < |values| => NatToDecimal(values[k]))
  }

  lemma DecimalToken(n: nat)
    ensures PyInt(NatToDecimal(n), TokenBase(NatToDecimal(n))) == Some(n)
  {
    var d := NatToDecimal(n);
    DecimalDigitsRoundTrip(n);
    GroupedPlain(d, 10);
    NoXNoHex(d);
    assert StripWs(d) == d by {
      assert !IsSpace(d[0]) && !IsSpace(d[|d| - 1]);
    }
  }

  lemma {:induction false} ParseDecimals(values: seq<nat>)
    ensures ParseCells(Decimals(values)) == Some(values)
    decreases |values|
  {
    if |values| > 0 {
      var ds := Decimals(values);
      DecimalToken(values[0]);
      assert ds[1..] == Decimals(values[1..]);
      ParseDecimals(values[1..]);
      assert [values[0]] + values[1..] == values;
    }
  }

  /** A cell literal `<n1 n2 ...>` written in decimal converts back to the
      same numbers. */
  lemma CellLiteralRoundTrip(values: seq<nat>)
    ensures Convert("<" + JoinWith(Decimals(values), ' ') + ">") == Ok(AsNums(values))
  {
    var words := Decimals(values);
    var j := JoinWith(words, ' ');
    var s := "<" + j + ">";
    assert StartsWith(s, "<");
    forall k | 0 <= k < |words|
      ensures Word(words[k])
    {
      assert forall i :: 0 <= i < |words[k]| ==> '0' <= words[k][i] <= '9';
    }
    JoinHasNoAngles(words);
    RemoveAnglesConcat("<", j + ">");
    RemoveAnglesConcat(j, ">");
    RemoveAnglesNone(j);
    assert s == "<" + (j + ">");
    assert RemoveAngles(s) == j;
    SplitWsJoin(words);
    ParseDecimals(values);
  }

  lemma {:induction false} JoinHasNoAngles(words: seq<string>)
    requires forall k :: 0 <= k < |words| ==> forall i :: 0 <= i < |words[k]| ==> '0' <= words[k][i] <= '9'
    ensures '<' !in JoinWith(words, ' ') && '>' !in JoinWith(words, ' ')
    decreases |words|
  {
    if |words| > 1 {
      JoinHasNoAngles(words[1..]);
    }
  }

  /** A `0x` token is read in base 16. */
  lemma HexToken(digits: string)
    requires |digits| > 0 && AllDigitsIn(digits, 16)
    ensures TokenBase("0x" + digits) == 16
    ensures PyInt("0x" + digits, 16) == Some(DigitsValue(digits, 16))
  {
    var t := "0x" + digits;
    assert StartsWith(t, "0x") by {
      assert t[..2] == "0x";
    }
    HexTokenStripped(digits);
    assert DigitPart(t, 16) == digits by {
      assert t[2..] == digits;
      assert IsDigitIn(digits[0], 16);
    }
    GroupedPlain(digits, 16);
  }

  lemma HexTokenStripped(digits: string)
    requires |digits| > 0 && AllDigitsIn(digits, 16)
    ensures StripWs("0x" + digits) == "0x" + digits
  {
    var t := "0x" + digits;
    var last := digits[|digits| - 1];
    assert IsDigitIn(last, 16);
    assert t[|t| - 1] == last;
    assert !IsSpace(t[0]) && !IsSpace(t[|t| - 1]);
  }

  function Quote(a: string): string
  {
    "\"" + a + "\""
  }

  function Quoted(parts: seq<string>): (r: seq<string>)
    ensures |r| == |parts|
    ensures forall k :: 0 <= k < |r| ==> r[k] == Quote(parts[k])
  {
    seq(|parts|, k requires 0 <= k < |parts| => Quote(parts[k]))
  }

  /** Text that can sit between quotes without ending them early. */
  predicate QuoteFree(a: string)
  {
    forall k :: 0 <= k < |a| ==> a[k] != '"' && a[k] != '\\' && a[k] != '\n'
  }

  lemma {:induction false} ClosingQuoteAfter(s: string, k: nat, n: nat)
    requires 1 <= k && k + n < |s|
    requires s[k - 1] != '\\' && s[k + n] == '"'
    requires forall i :: k <= i < k + n ==> s[i] != '"' && s[i] != '\\' && s[i] != '\n'
    ensures ClosingQuote(s, '"', k) == Some(k + n)
    decreases n
  {
    if n > 0 {
      ClosingQuoteAfter(s, k + 1, n - 1);
    }
  }

  lemma QuotedHead(s: string, i: nat, a: string, tail: string)
    requires i <= |s| && s[i..] == Quote(a) + tail && QuoteFree(a)
    ensures s[i] == '"'
    ensures ClosingQuote(s, '"', i + 1) == Some(i + 1 + |a|)
    ensures s[i + 1..i + 1 + |a|] == a
    ensures s[i + 2 + |a|..] == tail
  {
    var t := s[i..];
    assert t[0] == '"';
    var j := i + 1 + |a|;
    forall m | i + 1 <= m < j
      ensures s[m] != '"' && s[m] != '\\' && s[m] != '\n'
    {
      assert s[m] == t[m - i] == a[m - i - 1];
    }
    assert s[j] == t[j - i] == '"';
    assert s[i] == t[0];
    ClosingQuoteAfter(s, i + 1, |a|);
    assert s[i + 1..j] == t[1..1 + |a|];
    assert t[1..1 + |a|] == a;
    assert s[j + 1..] == t[|Quote(a)|..];
  }

  lemma {:induction false} FindQuotedList(s: string, i: nat, parts: seq<string>)
    requires i <= |s| && s[i..] == JoinWith(Quoted(parts), ',')
    requires forall k :: 0 <= k < |parts| ==> QuoteFree(parts[k])
    ensures FindQuoted(s, i) == parts
    decreases |parts|
  {
    if |parts| == 1 {
      assert s[i..] == Quote(parts[0]) + "";
      QuotedHead(s, i, parts[0], "");
    } else if |parts| > 1 {
      QuotedStep(s, i, parts);
      FindQuotedList(s, i + 3 + |parts[0]|, parts[1..]);
      FindQuotedCons(s, i, parts);
    }
  }

  /** One step of FindQuotedList: the first part, then whatever the rest
      of the list yields. */
  lemma FindQuotedCons(s: string, i: nat, parts: seq<string>)
    requires |parts| > 1 && QuoteFree(parts[0])
    requires i <= |s| && s[i..] == JoinWith(Quoted(parts), ',')
    requires i + 3 + |parts[0]| <= |s| && FindQuoted(s, i + 3 + |parts[0]|) == parts[1..]
    ensures FindQuoted(s, i) == parts
  {
    QuotedStep(s, i, parts);
    FindQuotedAt(s, i, i + 1 + |parts[0]|);
    assert [parts[0]] + parts[1..] == parts;
  }

  /** The first quoted string of a list closes where it should and is
      followed by a comma and the rest of the list. */
  lemma QuotedStep(s: string, i: nat, parts: seq<string>)
    requires |parts| > 1 && QuoteFree(parts[0])
    requires i <= |s| && s[i..] == JoinWith(Quoted(parts), ',')
    ensures var j := i + 1 + |parts[0]|;
      j + 2 <= |s| && s[i] == '"' && ClosingQuote(s, '"', i + 1) == Some(j) && s[i + 1..j] == parts[0]
      && s[j + 1] == ',' && s[j + 2..] == JoinWith(Quoted(parts[1..]), ',')
  {
    var a := parts[0];
    var j := i + 1 + |a|;
    var rest := JoinWith(Quoted(parts[1..]), ',');
    assert Quoted(parts)[1..] == Quoted(parts[1..]);
    assert s[i..] == Quote(a) + ([','] + rest);
    QuotedHead(s, i, a, [','] + rest);
    assert s[j + 1] == ',' by { assert s[j + 1..][0] == ','; }
    assert s[j + 2..] == rest by { assert s[j + 2..] == s[j + 1..][1..]; }
  }

  /** A quoted string at i closed at j and followed by a comma. */
  lemma FindQuotedAt(s: string, i: nat, j: nat)
    requires i < |s| && s[i] == '"' && i < j && j + 1 < |s| && s[j + 1] == ','
    requires ClosingQuote(s, '"', i + 1) == Some(j)
    ensures FindQuoted(s, i) == [s[i + 1..j]] + FindQuoted(s, j + 2)
  {
    assert FindQuoted(s, j + 1) == FindQuoted(s, j + 2);
  }

  /** Two or more quoted strings separated by commas convert to those
      strings. */
  lemma QuotedListRoundTrip(parts: seq<string>)
    requires |parts| > 1
    requires forall k :: 0 <= k < |parts| ==> QuoteFree(parts[k])
    ensures Convert(JoinWith(Quoted(parts), ',')) == Ok(AsStrs(parts))
  {
    var s := JoinWith(Quoted(parts), ',');
    assert s[0] == '"';
    assert s[0..] == s;
    FindQuotedList(s, 0, parts);
  }

  // ------------------------------------------------ phandle names

  function RemoveChar(s: string, c: char): (r: string)
    ensures c !in r
    ensures c !in s ==> r == s
  {
    if |s| == 0 then ""
    else if s[0] == c then RemoveChar(s[1..], c)
    else [s[0]] + RemoveChar(s[1..], c)
  }

  function ReplaceChar(s: string, a: char, b: char): (r: string)
    ensures |r| == |s|
    ensures forall k :: 0 <= k < |s| ==> r[k] == if s[k] == a then b else s[k]
  {
    seq(|s|, k requires 0 <= k < |s| => if s[k] == a then b else s[k])
  }

  /** `phandle_safe_name`: drop every '@', turn every '-' into '_'. */
  function PhandleSafeName(name: string): (r: string)
  {
    ReplaceChar(RemoveChar(name, '@'), '-', '_')
  }

  /** The safe name holds neither '@' nor '-', keeps every other character
      in order, and is one character shorter per '@' dropped. */
  lemma PhandleSafeNameShape(name: string)
    ensures '@' !in PhandleSafeName(name) && '-' !in PhandleSafeName(name)
    ensures |PhandleSafeName(name)| == |RemoveChar(name, '@')|
    ensures '@' !in name ==> |PhandleSafeName(name)| == |name|
  {
    var r := PhandleSafeName(name);
    var m := RemoveChar(name, '@');
    assert forall k :: 0 <= k < |r| ==> r[k] != '@' by {
      assert forall k :: 0 <= k < |m| ==> m[k] != '@';
    }
  }

  /** Making a name safe twice changes nothing more; a name that is already
      safe is kept. */
  lemma PhandleSafeNameIdempotent(name: string)
    ensures PhandleSafeName(PhandleSafeName(name)) == PhandleSafeName(name)
    ensures '@' !in name && '-' !in name ==> PhandleSafeName(name) == name
  {
    PhandleSafeNameShape(name);
    var r := PhandleSafeName(name);
    assert ReplaceChar(r, '-', '_') == r;
    if '@' !in name && '-' !in name {
      assert ReplaceChar(name, '-', '_') == name;
    }
  }

  // ------------------------------------------------ phandle descriptors

  /** The descriptor table built into lopper: for each property that may
      hold phandles, the layout of one record of its cells. */
  function DefaultPhandleDescriptors(): map<string, string>
  {
    map[
      "DEFAULT" := "this is the default provided phandle map",
      "address-map" := "#ranges-address-cells phandle #ranges-address-cells #ranges-size-cells",
      "interrupt-parent" := "phandle",
      "iommus" := "phandle field",
      "interrupt-map" := "#interrupt-cells phandle #interrupt-cells",
      "access" := "phandle",
      "cpus" := "phandle mask mode",
      "clocks" := "phandle:#clock-cells"
    ]
  }

  /** `phandle_possible_properties`: the table a lop file installed, or the
      built-in one while none is installed. */
  function PhandlePossibleProperties(installed: map<string, string>): (t: map<string, string>)
    ensures |installed| > 0 ==> t == installed
    ensures |installed| == 0 ==> "DEFAULT" in t && "clocks" in t && "interrupt-parent" in t
  {
    if |installed| > 0 then installed else DefaultPhandleDescriptors()
  }
}
