/** The extension header that follows the fixed header: `ext_count` items,
    each a `(type, len)` byte pair stored `kUnitSize` bytes apart, whose
    `len` bytes add up (in a 16-bit accumulator) to the header's `ext_len`. */
module ExtHeader {
  import opened Wrappers

  /** `kUnitSize` comes from protocol.h, which is not part of this model;
      each item occupies a type byte and a len byte. */
  const kUnitSize: nat := 2

  /** A `uint8_t` count read as a number. */
  type Count = n: int | 0 <= n < 0x100

  datatype Item = Item(itemType: bv8, len: bv8)

  /** The item stored in slot `i` of `buf`. */
  function ItemAt(buf: seq<bv8>, i: nat): Item
    requires i * kUnitSize + 1 < |buf|
  {
    Item(buf[i * kUnitSize], buf[i * kUnitSize + 1])
  }

  /** The first `n` slots of `buf`, in order. */
  function ItemsOf(buf: seq<bv8>, n: nat): (r: seq<Item>)
    requires n * kUnitSize <= |buf|
    ensures |r| == n
  {
    if n == 0 then [] else ItemsOf(buf, n - 1) + [ItemAt(buf, n - 1)]
  }

  /** The sum of the items' len bytes, wrapping at 2^16 like the `uint16_t`
      accumulator of the parser. */
  function LenTotal(items: seq<Item>): bv16 {
    if |items| == 0 then 0 else LenTotal(items[..|items| - 1]) + (items[|items| - 1].len as bv16)
  }

  /** Taking one more slot adds its len byte to the total. */
  lemma LenTotalStep(buf: seq<bv8>, i: nat, total: bv16, step: bv16)
    requires (i + 1) * kUnitSize <= |buf|
    requires total == LenTotal(ItemsOf(buf, i)) && step == buf[i * kUnitSize + 1] as bv16
    ensures LenTotal(ItemsOf(buf, i + 1)) == total + step
  {
    var next := ItemsOf(buf, i + 1);
    assert next == ItemsOf(buf, i) + [ItemAt(buf, i)];
    assert next[..i] == ItemsOf(buf, i);
  }

  /** Slot `i` of the first `n` slots is the item at slot `i`. */
  lemma {:induction false} ItemsOfIndex(buf: seq<bv8>, n: nat, i: nat)
    requires n * kUnitSize <= |buf| && i < n
    ensures ItemsOf(buf, n)[i] == ItemAt(buf, i)
  {
    if i < n - 1 {
      ItemsOfIndex(buf, n - 1, i);
    }
  }

  /** The first `n` slots depend only on the first `n * kUnitSize` bytes. */
  lemma {:induction false} ItemsOfFrame(a: seq<bv8>, b: seq<bv8>, n: nat)
    requires n * kUnitSize <= |a| && n * kUnitSize <= |b|
    requires a[..n * kUnitSize] == b[..n * kUnitSize]
    ensures ItemsOf(a, n) == ItemsOf(b, n)
  {
    if n > 0 {
      assert a[..(n - 1) * kUnitSize] == a[..n * kUnitSize][..(n - 1) * kUnitSize];
      assert b[..(n - 1) * kUnitSize] == b[..n * kUnitSize][..(n - 1) * kUnitSize];
      ItemsOfFrame(a, b, n - 1);
      assert a[..n * kUnitSize][(n - 1) * kUnitSize] == b[..n * kUnitSize][(n - 1) * kUnitSize];
      assert a[..n * kUnitSize][(n - 1) * kUnitSize + 1] == b[..n * kUnitSize][(n - 1) * kUnitSize + 1];
    }
  }

  // ---------------------------------------------------------------------
  // ExtHeader::Parser

  /** A parser over `extCount` items (the header's `ext_count`) in `buf`. */
  datatype Parser = Parser(extCount: Count, buf: seq<bv8>)

  /** The buffer holds every item the count announces. */
  predicate Readable(p: Parser) {
    p.extCount * kUnitSize <= |p.buf|
  }

  /** The items the parser's count announces. */
  function Items(p: Parser): seq<Item>
    requires Readable(p)
  {
    ItemsOf(p.buf, p.extCount)
  }

  /** `Parser::IsValid(ext_len)`: adds the len byte of each of the first
      `ext_count` items into a 16-bit accumulator and compares with
      `ext_len`. */
  method IsValid(p: Parser, extLen: bv16) returns (ok: bool)
    requires Readable(p)
    ensures ok <==> LenTotal(Items(p)) == extLen
  {
    var len: bv16 := 0;
    var i := 0;
    while i < p.extCount
      invariant 0 <= i <= p.extCount
      invariant len == LenTotal(ItemsOf(p.buf, i))
    {
      var pos := i * kUnitSize;
      var step := p.buf[pos + 1] as bv16;
      LenTotalStep(p.buf, i, len, step);
      len := len + step;
      i := i + 1;
    }
    ok := len == extLen;
  }

  /** `Parser::GetExtItem` as written: it refuses only an index above the
      count, so the index equal to the count is accepted and reads the two
      bytes just past the last item. (A negative index is not modelled.) */
  function GetExtItemAsWritten(p: Parser, index: nat): (r: Option<Item>)
    requires index <= p.extCount ==> index * kUnitSize + 1 < |p.buf|
    ensures r.None? <==> index > p.extCount
    ensures r.Some? ==> r.value == ItemAt(p.buf, index)
  {
    if index > p.extCount then None else Some(ItemAt(p.buf, index))
  }

  /** `Parser::GetExtItem` with the bound the count implies: an index names
      an item exactly when it is below the count, and then yields that item. */
  function GetExtItem(p: Parser, index: nat): (r: Option<Item>)
    requires Readable(p)
    ensures r.Some? <==> index < p.extCount
    ensures r.Some? ==> r.value == Items(p)[index]
  {
    if index >= p.extCount then None
    else
      ItemsOfIndex(p.buf, p.extCount, index);
      Some(ItemAt(p.buf, index))
  }

  /** The as-written bound lets through the index equal to the count, which
      names no item: with no items and two bytes of extension data after
      them, index 0 yields those two data bytes as an item. */
  lemma AsWrittenAcceptsOnePastLast(p: Parser)
    requires p.extCount * kUnitSize + 1 < |p.buf|
    ensures |Items(p)| == p.extCount
    ensures GetExtItemAsWritten(p, p.extCount) == Some(ItemAt(p.buf, p.extCount))
    ensures GetExtItem(p, p.extCount) == None
  {
  }

  /** The concrete instance of the above. */
  lemma AsWrittenCounterexample()
    ensures var p := Parser(0, [5, 7]);
      Items(p) == [] && GetExtItemAsWritten(p, 0) == Some(Item(5, 7)) && GetExtItem(p, 0).None?
  {
  }

  // ---------------------------------------------------------------------
  // ExtHeader::Builder

  /** A builder that has written `count` items into `buf`. */
  datatype Builder = Builder(count: nat, buf: seq<bv8>)

  /** The builder's buffer holds every item it has written. */
  predicate Holds(b: Builder) {
    b.count * kUnitSize <= |b.buf|
  }

  /** A fresh builder over `buf`: it writes into the caller's buffer and
      has written nothing yet. */
  function NewBuilder(buf: seq<bv8>): (b: Builder)
    ensures b.count == 0 && b.buf == buf
    ensures Holds(b) && ItemsOf(b.buf, b.count) == []
  {
    Builder(0, buf)
  }

  /** `Builder::AddExtItem`: writes the type byte at `count * kUnitSize`,
      the len byte right after it, and bumps the count. The items written
      so far stay, and the new one is appended after them. */
  function AddExtItem(b: Builder, t: bv8, l: bv8): (r: Builder)
    requires Holds(b)
    requires (b.count + 1) * kUnitSize <= |b.buf|
    ensures Holds(r) && r.count == b.count + 1 && |r.buf| == |b.buf|
    ensures ItemsOf(r.buf, r.count) == ItemsOf(b.buf, b.count) + [Item(t, l)]
    ensures forall i | 0 <= i < |b.buf| && i != b.count * kUnitSize && i != b.count * kUnitSize + 1
      :: r.buf[i] == b.buf[i]
  {
    var pos := b.count * kUnitSize;
    var buf := b.buf[pos := t][pos + 1 := l];
    assert buf[..pos] == b.buf[..pos];
    ItemsOfFrame(buf, b.buf, b.count);
    Builder(b.count + 1, buf)
  }

  /** The builder after adding `items` in order. */
  function AddAll(b: Builder, items: seq<Item>): (r: Builder)
    requires Holds(b)
    requires (b.count + |items|) * kUnitSize <= |b.buf|
    ensures Holds(r) && r.count == b.count + |items| && |r.buf| == |b.buf|
    ensures ItemsOf(r.buf, r.count) == ItemsOf(b.buf, b.count) + items
    ensures forall i | r.count * kUnitSize <= i < |b.buf| :: r.buf[i] == b.buf[i]
    decreases |items|
  {
    if |items| == 0 then b
    else
      var last := items[|items| - 1];
      var before := AddAll(b, items[..|items| - 1]);
      assert items == items[..|items| - 1] + [last];
      assert before.count * kUnitSize + 1 < (before.count + 1) * kUnitSize;
      AddExtItem(before, last.itemType, last.len)
  }

  /** Items written by the builder are read back by the parser: each index
      below the count yields its item, and the one at the count or beyond
      yields nothing. The buffer is the caller's, and every byte past the
      written items is still the caller's. */
  lemma {:induction false} BuildThenParse(buf: seq<bv8>, items: seq<Item>, index: nat)
    requires |items| < 0x100 && |items| * kUnitSize <= |buf|
    ensures var p := Parser(|items|, AddAll(NewBuilder(buf), items).buf);
      && Readable(p)
      && Items(p) == items
      && (index < |items| ==> GetExtItem(p, index) == Some(items[index]))
      && (index >= |items| ==> GetExtItem(p, index) == None)
      && |p.buf| == |buf|
      && (forall i | |items| * kUnitSize <= i < |buf| :: p.buf[i] == buf[i])
  {
    var b := AddAll(NewBuilder(buf), items);
    assert ItemsOf(b.buf, b.count) == [] + items;
  }
}
