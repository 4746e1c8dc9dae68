/** The arithmetic of `LopperNode.address` in lopper/tree.py: reading a
    run of cells as one big-endian number, cutting a parent's `ranges`
    value into (child address, parent address, size) triples and finding
    the first triple whose window holds an address. This is the
    translation of section 2.3.8 of the Devicetree Specification. */
module Ranges {
  import opened Common
  import opened Base
  import opened Chunks

  /** 2^(32 k). */
  function Pow32(k: nat): (r: nat)
    ensures r >= 1
  {
    if k == 0 then 1 else TWO32 * Pow32(k - 1)
  }

  /** `int.from_bytes(encode_byte_array(cells), "big")`: the cells as one
      big-endian number. A string has no `to_bytes` (AttributeError); an
      integer outside 32 unsigned bits does not fit in four bytes
      (OverflowError). The first bad cell decides. */
  function CellsValue(cs: seq<PVal>): (r: Result<nat>)
    decreases |cs|
  {
    if |cs| == 0 then Ok(0)
    else match cs[0]
      case Str(_) => Err(AttributeError)
      case Num(n) =>
        if !(0 <= n < TWO32) then Err(OverflowError)
        else match CellsValue(cs[1..])
          case Err(e) => Err(e)
          case Ok(v) => Ok(n * Pow32(|cs| - 1) + v)
  }

  predicate IsCell(x: PVal)
  {
    x.Num? && 0 <= x.n < TWO32
  }

  /** The cells are read without error exactly when every one is an
      integer that fits in 32 bits. */
  lemma {:induction false} CellsValueOk(cs: seq<PVal>)
    ensures CellsValue(cs).Ok? <==> forall i :: 0 <= i < |cs| ==> IsCell(cs[i])
    decreases |cs|
  {
    if |cs| > 0 {
      CellsValueOk(cs[1..]);
      assert forall i :: 1 <= i < |cs| ==> cs[i] == cs[1..][i - 1];
    }
  }

  /** The number has at most 32 bits per cell. */
  lemma {:induction false} CellsValueBound(cs: seq<PVal>)
    requires CellsValue(cs).Ok?
    ensures CellsValue(cs).value < Pow32(|cs|)
    decreases |cs|
  {
    if |cs| > 0 {
      CellsValueBound(cs[1..]);
      var n := cs[0].n;
      var v := CellsValue(cs[1..]).value;
      var m := Pow32(|cs| - 1);
      assert CellsValue(cs).value == n * m + v;
      assert (n + 1) * m == n * m + m;
      MulMono(n + 1, TWO32, m);
    }
  }

  lemma MulMono(a: int, b: int, m: nat)
    requires a <= b
    ensures a * m <= b * m
  {
  }

  /** Appending a cell shifts the number up by 32 bits and adds the cell:
      the first cell is the most significant. */
  lemma {:induction false} CellsValueAppend(cs: seq<PVal>, c: Cell)
    requires CellsValue(cs).Ok?
    ensures CellsValue(cs + [Num(c)]) == Ok(CellsValue(cs).value * TWO32 + c)
    decreases |cs|
  {
    if |cs| == 0 {
      assert [Num(c)][1..] == [];
    } else {
      assert (cs + [Num(c)])[1..] == cs[1..] + [Num(c)];
      CellsValueAppend(cs[1..], c);
      var n := cs[0].n;
      calc {
        n * Pow32(|cs|) + CellsValue(cs[1..]).value * TWO32 + c;
        (n * Pow32(|cs| - 1) + CellsValue(cs[1..]).value) * TWO32 + c;
      }
    }
  }

  /** Two cells give (hi << 32) | lo. */
  lemma CellsValuePair(hi: Cell, lo: Cell)
    ensures CellsValue([Num(hi), Num(lo)]) == Ok(hi * TWO32 + lo)
  {
    CellsValueAppend([Num(hi)], lo);
    assert [Num(hi)] + [Num(lo)] == [Num(hi), Num(lo)];
  }

  /** `propval(name)[0]` with the fallback of `address` for a falsy value
      (None of the property gives [""]): Ok((count, textual)), textual
      when the value is a non-empty string, which `int()` must parse. */
  function CellCount(v: seq<PVal>, dflt: int): (r: Result<(int, bool)>)
    ensures r.Err? <==> |v| == 0 || (v[0].Str? && v[0].s != "" && PyInt(v[0].s, 10).None?)
    ensures r.Ok? && !r.value.1 ==>
      ((v[0] == Num(0) || v[0] == Str("")) && r.value.0 == dflt) || (v[0].Num? && v[0].n != 0 && r.value.0 == v[0].n)
    ensures r.Ok? && r.value.1 ==> v[0].Str? && PyInt(v[0].s, 10) == Some(r.value.0)
  {
    if |v| == 0 then Err(IndexError)
    else match v[0]
      case Num(n) => Ok((if n == 0 then dflt else n, false))
      case Str(s) =>
        if s == "" then Ok((dflt, false))
        else match PyInt(s, 10)
          case None => Err(ValueError)
          case Some(n) => Ok((n, true))
  }

  /** One entry of a `ranges` table. */
  datatype Window = Window(child: nat, parent: nat, size: nat)

  /** The triple of one `ranges` entry: the first ac cells, the next pac
      cells and the last sc cells (Python slices, so a short entry gives
      shorter fields). */
  function DecodeEntry(e: seq<PVal>, ac: int, pac: int, sc: int): (r: Result<Window>)
  {
    match CellsValue(PySlice(e, 0, ac))
    case Err(x) => Err(x)
    case Ok(c) =>
      match CellsValue(PySlice(e, ac, ac + pac))
      case Err(x) => Err(x)
      case Ok(pa) =>
        match CellsValue(PySlice(e, -sc, |e|))
        case Err(x) => Err(x)
        case Ok(s) => Ok(Window(c, pa, s))
  }

  /** The window test of `address`: inclusive at both ends. */
  predicate Covers(w: Window, u: int)
  {
    w.child <= u <= w.child + w.size
  }

  /** The loop of `address` over the entries: the first entry whose
      window holds u gives u moved into the parent's address space; an
      entry that cannot be read ends the walk in its error. */
  function Translate(entries: seq<seq<PVal>>, ac: int, pac: int, sc: int, u: int): (r: Result<Option<int>>)
    decreases |entries|
  {
    if |entries| == 0 then Ok(None)
    else match DecodeEntry(entries[0], ac, pac, sc)
      case Err(x) => Err(x)
      case Ok(w) =>
        if Covers(w, u) then Ok(Some(w.parent + u - w.child))
        else Translate(entries[1..], ac, pac, sc, u)
  }

  /** Entry e is readable and its window holds u, or does not. */
  predicate Hits(e: seq<PVal>, ac: int, pac: int, sc: int, u: int)
  {
    DecodeEntry(e, ac, pac, sc).Ok? && Covers(DecodeEntry(e, ac, pac, sc).value, u)
  }

  predicate Skips(e: seq<PVal>, ac: int, pac: int, sc: int, u: int)
  {
    DecodeEntry(e, ac, pac, sc).Ok? && !Covers(DecodeEntry(e, ac, pac, sc).value, u)
  }

  /** u moved from the child window of e to its parent window. */
  function Moved(e: seq<PVal>, ac: int, pac: int, sc: int, u: int): int
    requires DecodeEntry(e, ac, pac, sc).Ok?
  {
    var w := DecodeEntry(e, ac, pac, sc).value;
    w.parent + u - w.child
  }

  /** One step of the walk. */
  lemma TranslateCons(entries: seq<seq<PVal>>, ac: int, pac: int, sc: int, u: int)
    requires |entries| > 0
    ensures Hits(entries[0], ac, pac, sc, u) ==>
      Translate(entries, ac, pac, sc, u) == Ok(Some(Moved(entries[0], ac, pac, sc, u)))
    ensures Skips(entries[0], ac, pac, sc, u) ==>
      Translate(entries, ac, pac, sc, u) == Translate(entries[1..], ac, pac, sc, u)
    ensures !Hits(entries[0], ac, pac, sc, u) && !Skips(entries[0], ac, pac, sc, u) ==>
      Translate(entries, ac, pac, sc, u).Err?
  {
  }

  /** Every entry is readable and none holds u. */
  predicate Misses(entries: seq<seq<PVal>>, ac: int, pac: int, sc: int, u: int)
  {
    forall i :: 0 <= i < |entries| ==> Skips(entries[i], ac, pac, sc, u)
  }

  /** Entry i is the first that holds u. */
  predicate FirstHit(entries: seq<seq<PVal>>, ac: int, pac: int, sc: int, u: int, i: nat)
  {
    i < |entries| && Misses(entries[..i], ac, pac, sc, u) && Hits(entries[i], ac, pac, sc, u)
  }

  /** The walk finds nothing exactly when every entry misses. */
  lemma {:induction false} TranslateNone(entries: seq<seq<PVal>>, ac: int, pac: int, sc: int, u: int)
    ensures Translate(entries, ac, pac, sc, u) == Ok(None) <==> Misses(entries, ac, pac, sc, u)
    decreases |entries|
  {
    if |entries| > 0 {
      TranslateCons(entries, ac, pac, sc, u);
      TranslateNone(entries[1..], ac, pac, sc, u);
      MissesCons(entries, ac, pac, sc, u);
    }
  }

  /** When entry i is the first that holds u, the walk yields u moved
      through entry i. */
  lemma {:induction false} TranslateFirstHit(entries: seq<seq<PVal>>, ac: int, pac: int, sc: int, u: int, i: nat)
    requires FirstHit(entries, ac, pac, sc, u, i)
    ensures Translate(entries, ac, pac, sc, u) == Ok(Some(Moved(entries[i], ac, pac, sc, u)))
    decreases i
  {
    TranslateCons(entries, ac, pac, sc, u);
    if i > 0 {
      MissesCons(entries[..i], ac, pac, sc, u);
      assert entries[..i][1..] == entries[1..][..i - 1];
      assert entries[..i][0] == entries[0];
      assert entries[1..][i - 1] == entries[i];
      TranslateFirstHit(entries[1..], ac, pac, sc, u, i - 1);
    }
  }

  /** Whatever the walk yields comes from the first entry that holds u. */
  lemma {:induction false} TranslateFound(entries: seq<seq<PVal>>, ac: int, pac: int, sc: int, u: int)
    requires Translate(entries, ac, pac, sc, u).Ok? && Translate(entries, ac, pac, sc, u).value.Some?
    ensures exists i: nat :: FirstHit(entries, ac, pac, sc, u, i)
    decreases |entries|
  {
    TranslateCons(entries, ac, pac, sc, u);
    if Hits(entries[0], ac, pac, sc, u) {
      assert FirstHit(entries, ac, pac, sc, u, 0);
    } else {
      TranslateFound(entries[1..], ac, pac, sc, u);
      var j: nat :| FirstHit(entries[1..], ac, pac, sc, u, j);
      MissesCons(entries[..j + 1], ac, pac, sc, u);
      assert entries[..j + 1][1..] == entries[1..][..j];
      assert entries[1..][j] == entries[j + 1];
      assert FirstHit(entries, ac, pac, sc, u, j + 1);
    }
  }

  /** Misses splits into the first entry and the rest. */
  lemma MissesCons(entries: seq<seq<PVal>>, ac: int, pac: int, sc: int, u: int)
    requires |entries| > 0
    ensures Misses(entries, ac, pac, sc, u) <==>
      Skips(entries[0], ac, pac, sc, u) && Misses(entries[1..], ac, pac, sc, u)
  {
    assert forall i :: 1 <= i < |entries| ==> entries[i] == entries[1..][i - 1];
  }

  /** The entries `address` walks: `chunks(values, sc + ac + pac)`. A zero
      step is the ValueError of `range`; a negative one yields nothing. */
  function RangeEntries(values: seq<PVal>, item: int): (r: Result<seq<seq<PVal>>>)
    ensures r.Err? <==> item == 0
    ensures item > 0 ==> r == Ok(Chunks.Chunks(values, item))
    ensures item < 0 ==> r == Ok([])
  {
    if item == 0 then Err(ValueError) else if item < 0 then Ok([]) else Ok(Chunks.Chunks(values, item))
  }
}
