/** The calldata codec: runs of 0x00 and 0xff packed in two bytes, the first four output bytes inverted. */
module CallData {
  import opened Hex
  import opened Outcomes
  import opened Sequences

  // ---------------------------------------------------------------- inverting the first four bytes

  function MaskAt(i: nat, b: Byte): Byte {
    if i < 4 then 255 - b else b
  }

  /** The bytes with the first four inverted. */
  function Mask(s: seq<Byte>): (r: seq<Byte>)
    ensures |r| == |s| && forall i | 0 <= i < |s| :: r[i] == MaskAt(i, s[i])
  {
    if s == [] then [] else Mask(s[..|s| - 1]) + [MaskAt(|s| - 1, s[|s| - 1])]
  }

  // ---------------------------------------------------------------- runs

  datatype Item = Plain(b: Byte) | Zeros(n: nat) | Ones(n: nat) {
    predicate Valid() {
      match this
      case Plain(b) => 0 < b < 255
      case Zeros(n) => 1 <= n <= 128
      case Ones(n) => 1 <= n <= 32
    }

    function Written(): seq<Byte>
      requires Valid()
    {
      match this
      case Plain(b) => [b]
      case Zeros(n) => [0, n - 1]
      case Ones(n) => [0, n - 1 + 128]
    }

    function Stands(): seq<Byte>
      requires Valid()
    {
      match this
      case Plain(b) => [b]
      case Zeros(n) => Fill(n, 0)
      case Ones(n) => Fill(n, 255)
    }
  }

  function Fill(n: nat, b: Byte): (r: seq<Byte>)
    ensures |r| == n && forall i | 0 <= i < n :: r[i] == b
  {
    if n == 0 then [] else Fill(n - 1, b) + [b]
  }

  predicate AllValid(items: seq<Item>) {
    forall i | 0 <= i < |items| :: items[i].Valid()
  }

  function Encode(items: seq<Item>): seq<Byte>
    requires AllValid(items)
  {
    if items == [] then [] else items[0].Written() + Encode(items[1..])
  }

  function Meaning(items: seq<Item>): seq<Byte>
    requires AllValid(items)
  {
    if items == [] then [] else items[0].Stands() + Meaning(items[1..])
  }

  lemma {:induction false} ItemsAppend(items: seq<Item>, item: Item)
    requires AllValid(items) && item.Valid()
    ensures Encode(items + [item]) == Encode(items) + item.Written()
    ensures Meaning(items + [item]) == Meaning(items) + item.Stands()
  {
    if items == [] {
      assert [item][1..] == [];
    } else {
      assert (items + [item])[1..] == items[1..] + [item];
      ItemsAppend(items[1..], item);
    }
  }

  // ---------------------------------------------------------------- the decoder

  /** The unmasked byte at `i`; a byte past the end reads as zero before the mask. */
  function RawAt(ib: seq<Byte>, i: nat): Byte {
    MaskAt(i, if i < |ib| then ib[i] else 0)
  }

  /** What a run byte stands for: its low seven bits plus one bytes, ones for at most the first 32 of them. */
  function Run(c: Byte, length: nat): seq<Byte> {
    if length == 0 then []
    else Run(c, length - 1) + [if c >= 128 && length - 1 < 32 then 255 else 0]
  }

  function DecodeFrom(ib: seq<Byte>, i: nat): seq<Byte>
    decreases |ib| - i
  {
    if i >= |ib| then []
    else
      var c := RawAt(ib, i);
      if c == 0 then Run(RawAt(ib, i + 1), RawAt(ib, i + 1) as nat % 128 + 1) + DecodeFrom(ib, i + 2)
      else [c] + DecodeFrom(ib, i + 1)
  }

  function Decode(ib: seq<Byte>): seq<Byte> {
    DecodeFrom(ib, 0)
  }

  lemma {:induction false} RunOfZeros(c: Byte, n: nat)
    requires c < 128
    ensures Run(c, n) == Fill(n, 0)
  {
    if n > 0 { RunOfZeros(c, n - 1); }
  }

  lemma {:induction false} RunOfOnes(c: Byte, n: nat)
    requires c >= 128 && n <= 32
    ensures Run(c, n) == Fill(n, 255)
  {
    if n > 0 { RunOfOnes(c, n - 1); }
  }

  /** The decoder reads one written item as what it stands for. */
  lemma DecodeItem(ib: seq<Byte>, i: nat, item: Item)
    requires item.Valid() && i + |item.Written()| <= |ib|
    requires Mask(ib)[i..i + |item.Written()|] == item.Written()
    ensures DecodeFrom(ib, i) == item.Stands() + DecodeFrom(ib, i + |item.Written()|)
  {
    var head := item.Written();
    assert RawAt(ib, i) == Mask(ib)[i] == Mask(ib)[i..i + |head|][0] == head[0];
    if |head| == 2 {
      assert RawAt(ib, i + 1) == Mask(ib)[i..i + |head|][1] == head[1];
    }
    DecodeHead(ib, i, item);
  }

  lemma DecodeHead(ib: seq<Byte>, i: nat, item: Item)
    requires item.Valid() && i + |item.Written()| <= |ib|
    requires RawAt(ib, i) == item.Written()[0] && (|item.Written()| == 2 ==> RawAt(ib, i + 1) == item.Written()[1])
    ensures DecodeFrom(ib, i) == item.Stands() + DecodeFrom(ib, i + |item.Written()|)
  {
    hide RawAt, Fill, Run;
    match item
    case Plain(b) =>
    case Zeros(n) => RunOfZeros(n - 1, n);
    case Ones(n) => RunOfOnes(n - 1 + 128, n);
  }

  /** Decoding masked items from any position gives what they stand for. */
  lemma {:induction false} DecodeItems(ib: seq<Byte>, i: nat, items: seq<Item>)
    requires AllValid(items) && i <= |ib| && Mask(ib)[i..] == Encode(items)
    ensures DecodeFrom(ib, i) == Meaning(items)
    decreases items
  {
    if items == [] {
      assert |Mask(ib)[i..]| == 0;
    } else {
      SuffixSplits(Mask(ib), i, items[0].Written(), Encode(items[1..]));
      DecodeItem(ib, i, items[0]);
      DecodeItems(ib, i + |items[0].Written()|, items[1..]);
    }
  }

  method WriteRun(o0: seq<Byte>, c: Byte, s: nat) returns (o: seq<Byte>)
    ensures o == o0 + Run(c, s)
  {
    o := o0;
    for j := 0 to s
      invariant o == o0 + Run(c, j)
    {
      o := o + [if c >= 128 && j < 32 then 255 else 0];
    }
  }

  /** The decompressor's loops compute the decoder, on every input, well formed or not. */
  method Decompress(ib: seq<Byte>) returns (o: seq<Byte>)
    ensures o == Decode(ib)
  {
    hide RawAt, Run;
    o := [];
    var i := 0;
    while i < |ib|
      invariant o + DecodeFrom(ib, i) == Decode(ib)
      decreases |ib| - i
    {
      var c := RawAt(ib, i);
      assert DecodeFrom(ib, i) == if c == 0 then
          Run(RawAt(ib, i + 1), RawAt(ib, i + 1) as nat % 128 + 1) + DecodeFrom(ib, i + 2)
        else [c] + DecodeFrom(ib, i + 1);
      i := i + 1;
      if c == 0 {
        c := RawAt(ib, i);
        var s: nat := c as nat % 128 + 1;
        i := i + 1;
        JoinAssoc(o, Run(c, s), DecodeFrom(ib, i));
        o := WriteRun(o, c, s);
      } else {
        JoinAssoc(o, [c], DecodeFrom(ib, i));
        o := o + [c];
      }
    }
  }

  // ---------------------------------------------------------------- the compressor

  /** Appends a byte to the output, inverted while it is among the first four. */
  function PushByte(o: seq<Byte>, b: Byte): seq<Byte> {
    o + [MaskAt(|o|, b)]
  }

  /** Appends a run: `v` says which of the two run bytes, `d` how many. */
  function Rle(o: seq<Byte>, v: bool, d: nat): seq<Byte>
    requires 1 <= d <= (if v then 32 else 128)
  {
    PushByte(PushByte(o, 0), d - 1 + (if v then 128 else 0))
  }

  lemma PushUnmasks(o: seq<Byte>, b: Byte)
    ensures Mask(PushByte(o, b)) == Mask(o) + [b]
  {
    assert PushByte(o, b)[..|o|] == o;
  }

  /** What has been written so far: masked items that stand for a prefix of the input. */
  ghost predicate Wrote(data: seq<Byte>, done: nat, o: seq<Byte>, items: seq<Item>) {
    && done <= |data|
    && AllValid(items)
    && Mask(o) == Encode(items)
    && Meaning(items) == data[..done]
  }

  lemma WroteOne(data: seq<Byte>, done: nat, o: seq<Byte>, items: seq<Item>, item: Item, o': seq<Byte>)
    requires Wrote(data, done, o, items) && item.Valid()
    requires done + |item.Stands()| <= |data| && data[done..done + |item.Stands()|] == item.Stands()
    requires Mask(o') == Mask(o) + item.Written()
    ensures Wrote(data, done + |item.Stands()|, o', items + [item])
  {
    hide Encode, Meaning, Mask;
    ItemsAppend(items, item);
    assert data[..done + |item.Stands()|] == data[..done] + data[done..done + |item.Stands()|];
  }

  function RunItem(v: bool, d: nat): (item: Item)
    requires 1 <= d <= (if v then 32 else 128)
    ensures item.Valid()
  {
    if v then Ones(d) else Zeros(d)
  }

  lemma RleUnmasks(o: seq<Byte>, v: bool, d: nat)
    requires 1 <= d <= (if v then 32 else 128)
    ensures Mask(Rle(o, v, d)) == Mask(o) + RunItem(v, d).Written()
  {
    hide Mask, PushByte;
    var count: Byte := d - 1 + (if v then 128 else 0);
    PushUnmasks(o, 0);
    PushUnmasks(PushByte(o, 0), count);
    assert Mask(o) + [0] + [count] == Mask(o) + [0, count];
  }

  /** Flushes a pending run, if there is one. */
  method Flush(data: seq<Byte>, ghost done: nat, o: seq<Byte>, ghost items: seq<Item>, v: bool, d: nat)
    returns (o': seq<Byte>, ghost items': seq<Item>)
    requires Wrote(data, done, o, items) && done + d <= |data| && d <= (if v then 32 else 128)
    requires data[done..done + d] == Fill(d, if v then 255 else 0)
    ensures Wrote(data, done + d, o', items')
    ensures |o'| == |o| + (if d > 0 then 2 else 0)
  {
    o', items' := o, items;
    if d > 0 {
      RleUnmasks(o, v, d);
      o' := Rle(o, v, d);
      WroteOne(data, done, o, items, RunItem(v, d), o');
      items' := items + [RunItem(v, d)];
    }
  }

  /** Between bytes: everything before the pending runs is written, and the pending runs are what they count. */
  ghost predicate Pending(data: seq<Byte>, i: nat, o: seq<Byte>, items: seq<Item>, z: nat, y: nat) {
    && z < 128 && y < 32 && (z == 0 || y == 0) && z + y <= i <= |data|
    && Wrote(data, i - z - y, o, items)
    && data[i - z..i] == Fill(z, 0)
    && data[i - y..i] == Fill(y, 255)
    && |o| + (if z + y > 0 then 2 else 0) <= 2 * i
  }

  /** The output always decodes to the input, and is at most twice as long. */
  method Compress(data: seq<Byte>) returns (o: seq<Byte>)
    ensures Decode(o) == data
    ensures |o| <= 2 * |data|
  {
    hide Wrote;
    o := [];
    var z, y, i := 0, 0, 0;
    ghost var items: seq<Item> := [];
    NothingWrittenYet(data);
    while i < |data|
      invariant 0 <= i && 0 <= z && 0 <= y && Pending(data, i, o, items, z, y)
    {
      var c := data[i];
      if c == 0 {
        o, z, items := TakeZero(data, i, o, items, z, y);
        y := 0;
      } else if c == 255 {
        o, y, items := TakeOne(data, i, o, items, z, y);
        z := 0;
      } else {
        o, items := TakePlain(data, i, o, items, z, y);
        z, y := 0, 0;
      }
      i := i + 1;
    }
    o, items := FlushBoth(data, i, o, items, z, y);
    AllWrittenDecodes(data, o, items);
  }

  lemma NothingWrittenYet(data: seq<Byte>)
    ensures Wrote(data, 0, [], [])
  {
  }

  lemma AllWrittenDecodes(data: seq<Byte>, o: seq<Byte>, items: seq<Item>)
    requires Wrote(data, |data|, o, items)
    ensures Decode(o) == data
  {
    assert data[..|data|] == data;
    assert Mask(o)[0..] == Mask(o);
    DecodeItems(o, 0, items);
  }

  method TakeZero(data: seq<Byte>, i: nat, o: seq<Byte>, ghost items: seq<Item>, z: nat, y: nat)
    returns (o': seq<Byte>, z': nat, ghost items': seq<Item>)
    requires Pending(data, i, o, items, z, y) && i < |data| && data[i] == 0
    ensures Pending(data, i + 1, o', items', z', 0)
  {
    hide Wrote;
    o', items' := Flush(data, i - z - y, o, items, true, y);
    z' := z + 1;
    FillGrows(data, i, z, 0);
    if z' == 128 {
      o', items' := Flush(data, i + 1 - z', o', items', false, 128);
      z' := 0;
    }
  }

  method TakeOne(data: seq<Byte>, i: nat, o: seq<Byte>, ghost items: seq<Item>, z: nat, y: nat)
    returns (o': seq<Byte>, y': nat, ghost items': seq<Item>)
    requires Pending(data, i, o, items, z, y) && i < |data| && data[i] == 255
    ensures Pending(data, i + 1, o', items', 0, y')
  {
    hide Wrote;
    o', items' := Flush(data, i - z - y, o, items, false, z);
    y' := y + 1;
    FillGrows(data, i, y, 255);
    if y' == 32 {
      o', items' := Flush(data, i + 1 - y', o', items', true, 32);
      y' := 0;
    }
  }

  method TakePlain(data: seq<Byte>, i: nat, o: seq<Byte>, ghost items: seq<Item>, z: nat, y: nat)
    returns (o': seq<Byte>, ghost items': seq<Item>)
    requires Pending(data, i, o, items, z, y) && i < |data| && 0 < data[i] < 255
    ensures Pending(data, i + 1, o', items', 0, 0)
  {
    hide Wrote;
    o', items' := FlushBoth(data, i, o, items, z, y);
    PushUnmasks(o', data[i]);
    WroteOne(data, i, o', items', Plain(data[i]), PushByte(o', data[i]));
    items' := items' + [Plain(data[i])];
    o' := PushByte(o', data[i]);
  }

  lemma FillGrows(data: seq<Byte>, i: nat, n: nat, b: Byte)
    requires n <= i < |data| && data[i - n..i] == Fill(n, b) && data[i] == b
    ensures data[i - n..i + 1] == Fill(n + 1, b)
  {
    assert data[i - n..i + 1] == data[i - n..i] + [data[i]];
  }

  method FlushBoth(data: seq<Byte>, ghost i: nat, o: seq<Byte>, ghost items: seq<Item>, z: nat, y: nat)
    returns (o': seq<Byte>, ghost items': seq<Item>)
    requires Pending(data, i, o, items, z, y)
    ensures Wrote(data, i, o', items') && |o'| <= 2 * i
  {
    hide Wrote, Fill;
    o', items' := Flush(data, i - z - y, o, items, true, y);
    o', items' := Flush(data, i - z, o', items', false, z);
  }

  // ---------------------------------------------------------------- on hex strings

  method CdCompress(data: string) returns (r: Result<string, HexError>)
    ensures match ReadBytes(data)
            case Err(e) => r == Err(e)
            case Ok(bytes) => r.Ok? && ReadBytes(r.value).Ok? && Decode(ReadBytes(r.value).value) == bytes
                              && |r.value| <= 2 + 4 * |bytes|
  {
    var bytes :- ReadBytes(data);
    var o := Compress(bytes);
    PrintedBytesReadBack(o);
    return Ok(BytesToHex(o));
  }

  method CdDecompress(data: string) returns (r: Result<string, HexError>)
    ensures match ReadBytes(data)
            case Err(e) => r == Err(e)
            case Ok(bytes) => r == Ok(BytesToHex(Decode(bytes)))
  {
    var bytes :- ReadBytes(data);
    var o := Decompress(bytes);
    return Ok(BytesToHex(o));
  }

  /** Decompressing a compressed string prints the original bytes in canonical form. */
  method CdRoundTrip(data: string) returns (r: Result<string, HexError>)
    ensures match ReadBytes(data)
            case Err(e) => r == Err(e)
            case Ok(bytes) => r == Ok(BytesToHex(bytes))
  {
    var packed :- CdCompress(data);
    r := CdDecompress(packed);
  }
}
