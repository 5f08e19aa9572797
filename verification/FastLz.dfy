/** The FastLZ codec: the compressor with its hash table and the decompressor, both as loops over buffers, held
    together by the sequence of LZ77 tokens the compressed bytes stand for. */
module FastLz {
  import opened Hex
  import opened Outcomes
  import opened Sequences

  // ---------------------------------------------------------------- LZ77 tokens

  /** A run of literal bytes, or a copy of `length` bytes from `distance` back, which may overlap itself. */
  datatype Token = Literals(run: seq<Byte>) | Match(length: nat, distance: nat) {
    predicate Valid() {
      match this
      case Literals(run) => 1 <= |run| <= 32
      case Match(length, distance) => 3 <= length <= 264 && 1 <= distance <= 8192
    }
  }

  predicate AllValid(tokens: seq<Token>) {
    forall i | 0 <= i < |tokens| :: tokens[i].Valid()
  }

  /** Appends `length` bytes, each the byte `distance` before it; bytes before the start read as zero. */
  function CopyBack(out: seq<Byte>, distance: nat, length: nat): (r: seq<Byte>)
    requires distance >= 1
    ensures |r| == |out| + length
    decreases length
  {
    if length == 0 then out
    else
      var next: Byte := if distance <= |out| then out[|out| - distance] else 0;
      CopyBack(out + [next], distance, length - 1)
  }

  function Expand(out: seq<Byte>, token: Token): seq<Byte>
    requires token.Valid()
  {
    match token
    case Literals(run) => out + run
    case Match(length, distance) => CopyBack(out, distance, length)
  }

  /** What a token sequence stands for, appended to `out`. */
  function ExpandAll(out: seq<Byte>, tokens: seq<Token>): seq<Byte>
    requires AllValid(tokens)
    decreases tokens
  {
    if tokens == [] then out else ExpandAll(Expand(out, tokens[0]), tokens[1..])
  }

  /** How a token is written. */
  function Bytes(token: Token): seq<Byte>
    requires token.Valid()
  {
    match token
    case Literals(run) => [|run| - 1] + run
    case Match(length, distance) =>
      var l, d := length - 2, distance - 1;
      if l < 7 then [l * 32 + d / 256, d % 256] else [224 + d / 256, l - 7, d % 256]
  }

  function Encode(tokens: seq<Token>): seq<Byte>
    requires AllValid(tokens)
  {
    if tokens == [] then [] else Bytes(tokens[0]) + Encode(tokens[1..])
  }

  lemma {:induction false} TokensAppend(out: seq<Byte>, tokens: seq<Token>, more: seq<Token>)
    requires AllValid(tokens) && AllValid(more)
    ensures Encode(tokens + more) == Encode(tokens) + Encode(more)
    ensures ExpandAll(out, tokens + more) == ExpandAll(ExpandAll(out, tokens), more)
    decreases tokens
  {
    if tokens == [] {
      assert tokens + more == more;
    } else {
      assert (tokens + more)[1..] == tokens[1..] + more;
      TokensAppend(Expand(out, tokens[0]), tokens[1..], more);
    }
  }

  // ---------------------------------------------------------------- the decoder

  function At(ib: seq<Byte>, i: nat): Byte {
    if i < |ib| then ib[i] else 0
  }

  function Missing(length: nat): seq<Byte> {
    if length == 0 then [] else Missing(length - 1) + [0]
  }

  function LiteralBytes(ib: seq<Byte>, i: nat, length: nat): seq<Byte> {
    if length == 0 then [] else LiteralBytes(ib, i, length - 1) + [At(ib, i + length - 1)]
  }

  /** The distance a copy's two bytes stand for. */
  function Distance(head: Byte, low: Byte): (d: nat)
    ensures 1 <= d <= 8192
  {
    256 * (head as nat % 32) + low as nat + 1
  }

  /** One round of the decoder: where it reads next, and the output so far. A missing literal byte reads as zero; a
      copy whose distance byte is missing yields zeros, and one whose length byte is missing yields nothing. */
  function Round(ib: seq<Byte>, i: nat, out: seq<Byte>): (r: (nat, seq<Byte>))
    requires i < |ib|
    ensures r.0 > i
  {
    var t: nat := ib[i] as nat / 32;
    if t == 0 then
      (i + 2 + ib[i] as nat, out + LiteralBytes(ib, i + 1, ib[i] as nat + 1))
    else if t < 7 then
      (i + 2, if i + 1 < |ib| then CopyBack(out, Distance(ib[i], ib[i + 1]), 2 + t) else out + Missing(2 + t))
    else
      (i + 3, if i + 2 < |ib| then CopyBack(out, Distance(ib[i], ib[i + 2]), 9 + ib[i + 1] as nat)
              else if i + 1 < |ib| then out + Missing(9 + ib[i + 1] as nat)
              else out)
  }

  function DecodeFrom(ib: seq<Byte>, i: nat, out: seq<Byte>): seq<Byte>
    decreases |ib| - i
  {
    if i >= |ib| then out
    else
      var next := Round(ib, i, out);
      DecodeFrom(ib, next.0, next.1)
  }

  function Decode(ib: seq<Byte>): seq<Byte> {
    DecodeFrom(ib, 0, [])
  }

  lemma {:induction false} LiteralBytesAre(ib: seq<Byte>, i: nat, length: nat)
    requires i + length <= |ib|
    ensures LiteralBytes(ib, i, length) == ib[i..i + length]
  {
    if length > 0 {
      LiteralBytesAre(ib, i, length - 1);
      assert ib[i..i + length] == ib[i..i + length - 1] + [ib[i + length - 1]];
    }
  }

  /** The decoder reads one written token back as that token. */
  lemma RoundReadsToken(ib: seq<Byte>, i: nat, token: Token, out: seq<Byte>)
    requires token.Valid() && i + |Bytes(token)| <= |ib|
    requires ib[i..i + |Bytes(token)|] == Bytes(token)
    ensures Round(ib, i, out) == (i + |Bytes(token)|, Expand(out, token))
  {
    hide CopyBack, LiteralBytes;
    var bytes := Bytes(token);
    match token
    case Literals(run) =>
      LiteralBytesAre(ib, i + 1, |run|);
      assert bytes == [|run| - 1] + run;
      assert ib[i] == ib[i..i + |bytes|][0];
      assert ib[i + 1..i + 1 + |run|] == ib[i..i + |bytes|][1..];
      assert bytes[1..] == run;
    case Match(length, distance) =>
      assert ib[i] == ib[i..i + |bytes|][0] && ib[i + 1] == ib[i..i + |bytes|][1];
      if |bytes| == 3 { assert ib[i + 2] == ib[i..i + 3][2]; }
      CopyRead(ib, i, length - 2, distance - 1, out);
  }

  lemma CopyRead(ib: seq<Byte>, i: nat, l: nat, d: nat, out: seq<Byte>)
    requires d < 8192 && 1 <= l <= 262
    requires l < 7 ==> i + 2 <= |ib| && ib[i] == l * 32 + d / 256 && ib[i + 1] == d % 256
    requires l >= 7 ==> i + 3 <= |ib| && ib[i] == 224 + d / 256 && ib[i + 1] == l - 7 && ib[i + 2] == d % 256
    ensures Round(ib, i, out) == (i + (if l < 7 then 2 else 3), CopyBack(out, d + 1, l + 2))
  {
    hide CopyBack, LiteralBytes, Missing;
    DistanceWritten(d, l);
  }

  lemma DistanceWritten(d: nat, l: nat)
    requires d < 8192 && 1 <= l <= 262
    ensures l < 7 ==> (l * 32 + d / 256) / 32 == l && Distance(l * 32 + d / 256, d % 256) == d + 1
    ensures (224 + d / 256) / 32 == 7 && Distance(224 + d / 256, d % 256) == d + 1
  {
  }

  /** Decoding what a token sequence is written as gives what it stands for. */
  lemma {:induction false} DecodeTokens(ib: seq<Byte>, i: nat, tokens: seq<Token>, out: seq<Byte>)
    requires AllValid(tokens) && i <= |ib| && ib[i..] == Encode(tokens)
    ensures DecodeFrom(ib, i, out) == ExpandAll(out, tokens)
    decreases tokens
  {
    hide Round, Expand, Token.Valid;
    if tokens == [] {
      assert |ib[i..]| == 0;
    } else {
      var head, rest := Bytes(tokens[0]), Encode(tokens[1..]);
      var next := i + |head|;
      SuffixSplits(ib, i, head, rest);
      RoundReadsToken(ib, i, tokens[0], out);
      DecodeTokens(ib, next, tokens[1..], Expand(out, tokens[0]));
    }
  }

  /** The decompressor's loops compute the decoder, on every input, well formed or not. */
  method Decompress(ib: seq<Byte>) returns (ob: seq<Byte>)
    ensures ob == Decode(ib)
  {
    var i := 0;
    ob := [];
    while i < |ib|
      invariant DecodeFrom(ib, i, ob) == Decode(ib)
      decreases |ib| - i
    {
      i, ob := ReadToken(ib, i, ob);
    }
  }

  method ReadToken(ib: seq<Byte>, i: nat, ob: seq<Byte>) returns (next: nat, out: seq<Byte>)
    requires i < |ib|
    ensures (next, out) == Round(ib, i, ob)
  {
    var t: nat := ib[i] as nat / 32;
    if t == 0 {
      out := CopyLiterals(ib, i + 1, ib[i] as nat + 1, ob);
      next := i + 2 + ib[i] as nat;
    } else if t < 7 {
      out := CopyMatch(ob, if i + 1 < |ib| then Some(Distance(ib[i], ib[i + 1])) else None, 2 + t);
      next := i + 2;
    } else {
      out := ob;
      if i + 1 < |ib| {
        out := CopyMatch(ob, if i + 2 < |ib| then Some(Distance(ib[i], ib[i + 2])) else None, 9 + ib[i + 1] as nat);
      }
      next := i + 3;
    }
  }

  method CopyLiterals(ib: seq<Byte>, i0: nat, length: nat, ob0: seq<Byte>) returns (ob: seq<Byte>)
    ensures ob == ob0 + LiteralBytes(ib, i0, length)
  {
    ob := ob0;
    for done := 0 to length
      invariant ob == ob0 + LiteralBytes(ib, i0, done)
    {
      ob := ob + [At(ib, i0 + done)];
    }
  }

  /** Copies one byte at a time, so that a copy may read what it has just written. */
  method CopyMatch(ob0: seq<Byte>, distance: Option<nat>, length: nat) returns (ob: seq<Byte>)
    requires distance.Some? ==> distance.value >= 1
    ensures ob == if distance.Some? then CopyBack(ob0, distance.value, length) else ob0 + Missing(length)
  {
    ob := ob0;
    for done := 0 to length
      invariant distance.Some? ==> CopyBack(ob, distance.value, length - done) == CopyBack(ob0, distance.value, length)
      invariant distance.None? ==> ob == ob0 + Missing(done)
    {
      ob := ob + [if distance.Some? && distance.value <= |ob| then ob[|ob| - distance.value] else 0];
    }
  }

  // ---------------------------------------------------------------- the compressor

  /** The three bytes at `i`, little-endian. */
  function U24(ib: seq<Byte>, i: nat): nat
    requires i + 2 < |ib|
  {
    ib[i] as nat + 256 * ib[i + 1] as nat + 65536 * ib[i + 2] as nat
  }

  lemma U24Equal(ib: seq<Byte>, i: nat, r: nat)
    requires i + 2 < |ib| && r + 2 < |ib| && U24(ib, i) == U24(ib, r)
    ensures ib[i] == ib[r] && ib[i + 1] == ib[r + 1] && ib[i + 2] == ib[r + 2]
  {
  }

  /** The `length` bytes at `i` each repeat the byte `distance` before them; the stretches may overlap. */
  predicate Repeats(ib: seq<Byte>, i: nat, distance: nat, length: nat) {
    1 <= distance <= i && i + length <= |ib| && forall j | i <= j < i + length :: ib[j - distance] == ib[j]
  }

  /** Copying back over a repeat reproduces it, overlap included. */
  lemma {:induction false} RepeatCopies(ib: seq<Byte>, i: nat, distance: nat, length: nat)
    requires Repeats(ib, i, distance, length)
    ensures CopyBack(ib[..i], distance, length) == ib[..i + length]
    decreases length
  {
    if length > 0 {
      assert ib[..i] + [ib[i]] == ib[..i + 1];
      RepeatCopies(ib, i + 1, distance, length - 1);
    }
  }

  /** The state of a compression: what has been written is tokens that stand for the first `a` input bytes, within
      the worst-case expansion of one byte in 32. */
  ghost predicate Written(ib: seq<Byte>, a: nat, ob: seq<Byte>, tokens: seq<Token>) {
    && a <= |ib|
    && AllValid(tokens)
    && ob == Encode(tokens)
    && ExpandAll([], tokens) == ib[..a]
  }

  lemma WriteOne(ib: seq<Byte>, a: nat, ob: seq<Byte>, tokens: seq<Token>, token: Token, next: nat)
    requires Written(ib, a, ob, tokens) && token.Valid()
    requires a <= next <= |ib| && Expand(ib[..a], token) == ib[..next]
    ensures Written(ib, next, ob + Bytes(token), tokens + [token])
  {
    TokensAppend([], tokens, [token]);
    assert Encode([token]) == Bytes(token);
    assert [token][1..] == [];
    assert ExpandAll(ib[..a], [token]) == Expand(ib[..a], token);
  }

  /** Writes `ib[a..i]` as literal runs of at most 32. */
  method WriteLiterals(ib: seq<Byte>, a: nat, i: nat, ob0: seq<Byte>, ghost tokens0: seq<Token>)
    returns (ob: seq<Byte>, ghost tokens: seq<Token>)
    requires a <= i <= |ib| && Written(ib, a, ob0, tokens0)
    ensures Written(ib, i, ob, tokens)
    ensures 32 * |ob| <= 32 * |ob0| + 33 * (i - a) + 31
  {
    hide Written;
    ob, tokens := ob0, tokens0;
    var s, r := a, i - a;
    while r >= 32
      invariant s + r == i && a <= s <= i && Written(ib, s, ob, tokens)
      invariant 32 * |ob| == 32 * |ob0| + 33 * (s - a)
    {
      var token := Literals(ib[s..s + 32]);
      assert ib[..s] + ib[s..s + 32] == ib[..s + 32];
      WriteOne(ib, s, ob, tokens, token, s + 32);
      tokens := tokens + [token];
      ob := ob + Bytes(token);
      s, r := s + 32, r - 32;
    }
    if r > 0 {
      var token := Literals(ib[s..i]);
      assert ib[..s] + ib[s..i] == ib[..i];
      WriteOne(ib, s, ob, tokens, token, i);
      tokens := tokens + [token];
      ob := ob + Bytes(token);
    }
  }

  /** How far the match runs: `l + 2` bytes, measured to the first mismatch or to four bytes before the end. */
  method MatchLength(ib: seq<Byte>, r: nat, i: nat) returns (l: nat)
    requires r < i && i + 7 < |ib| && Repeats(ib, i, i - r, 3)
    ensures l >= 1 && i + l + 7 <= |ib|
    ensures Repeats(ib, i, i - r, l + 2)
  {
    var p, q := r + 3, i + 3;
    var e := |ib| - 4 - q;
    l := 0;
    while l < e
      invariant e == 0 || e == |ib| - 4 - q
      invariant q + l + 4 <= |ib|
      invariant if e == 0 then l >= 1 && Repeats(ib, i, i - r, 2 + l) else Repeats(ib, i, i - r, 3 + l)
      decreases |ib| - l
    {
      if ib[p + l] != ib[q + l] {
        e := 0;
      }
      l := l + 1;
    }
  }

  /** Writes a match of `l + 2` bytes at distance `d + 1`: 262 at a time while it is long, then the rest. */
  method WriteMatch(ib: seq<Byte>, i: nat, d: nat, l: nat, ob0: seq<Byte>, ghost tokens0: seq<Token>)
    returns (ob: seq<Byte>, ghost tokens: seq<Token>)
    requires l >= 1 && d < 8192 && Repeats(ib, i, d + 1, l + 2)
    requires Written(ib, i, ob0, tokens0)
    ensures Written(ib, i + l + 2, ob, tokens)
    ensures |ob| <= |ob0| + l + 1
  {
    hide Written, Repeats;
    var rest;
    ghost var at;
    rest, ob, at, tokens := WriteChunks(ib, i, d, l, ob0, tokens0);
    tokens := WriteCopy(ib, at, d + 1, rest, ob, tokens);
    ob := ob + if rest < 7 then ShortCopy(rest, d) else LongCopy(rest - 7, d);
  }

  method WriteChunks(ib: seq<Byte>, i: nat, d: nat, l: nat, ob0: seq<Byte>, ghost tokens0: seq<Token>)
    returns (rest: nat, ob: seq<Byte>, ghost at: nat, ghost tokens: seq<Token>)
    requires l >= 1 && d < 8192 && Repeats(ib, i, d + 1, l + 2)
    requires Written(ib, i, ob0, tokens0)
    ensures 1 <= rest <= 262 && at + rest == i + l && Repeats(ib, at, d + 1, rest + 2)
    ensures Written(ib, at, ob, tokens) && |ob| <= |ob0| + (at - i)
  {
    hide Written;
    rest, ob, at, tokens := l, ob0, i, tokens0;
    while rest > 262
      invariant 1 <= rest && at + rest == i + l && Repeats(ib, at, d + 1, rest + 2)
      invariant Written(ib, at, ob, tokens) && |ob| <= |ob0| + (at - i)
    {
      tokens := WriteCopy(ib, at, d + 1, 260, ob, tokens);
      ob := ob + LongCopy(253, d);
      rest, at := rest - 262, at + 262;
    }
  }

  function ShortCopy(l: nat, d: nat): seq<Byte>
    requires 1 <= l < 7 && d < 8192
  {
    [l * 32 + d / 256, d % 256]
  }

  function LongCopy(l: Byte, d: nat): seq<Byte>
    requires d < 8192
  {
    [224 + d / 256, l, d % 256]
  }

  /** A copy of `l + 2` repeated bytes, written in its short or long form. */
  lemma WriteCopy(ib: seq<Byte>, i: nat, distance: nat, l: nat, ob: seq<Byte>, tokens: seq<Token>)
    returns (more: seq<Token>)
    requires Written(ib, i, ob, tokens) && Repeats(ib, i, distance, l + 2)
    requires 1 <= l <= 262 && distance <= 8192
    ensures var d := distance - 1;
            Written(ib, i + l + 2, ob + if l < 7 then ShortCopy(l, d) else LongCopy(l - 7, d), more)
  {
    hide Written;
    var token := Match(l + 2, distance);
    RepeatCopies(ib, i, distance, l + 2);
    WriteOne(ib, i, ob, tokens, token, i + l + 2);
    more := tokens + [token];
  }

  /** Every position in the hash table lies strictly before the cursor. */
  predicate Behind(ht: map<nat, nat>, i: nat) {
    forall h | h in ht :: ht[h] < i
  }

  /** Advances the cursor to a position whose three bytes occurred before within the window, as the table remembers
      it, or to the end of the range the search stops at. */
  method FindMatch(ib: seq<Byte>, hash: nat -> nat, ht0: map<nat, nat>, i0: nat)
    returns (ht: map<nat, nat>, i: nat, r: nat, found: bool)
    requires 2 <= i0 && i0 + 13 < |ib| && Behind(ht0, i0)
    ensures i0 <= i && Behind(ht, i + 1)
    ensures found ==> i + 14 < |ib| && r < i && i - r < 8192
                      && Repeats(ib, i, i - r, 3)
  {
    ht, i := ht0, i0;
    var limit := |ib| - 13;
    var searching, same := true, false;
    r := 0;
    while searching
      invariant i0 <= i <= limit && Behind(ht, if searching || i == limit then i + 1 else i)
      invariant searching ==> Behind(ht, i)
      invariant !searching && i < limit ==> same
      invariant !searching && same && i < limit ==>
                  i > i0 && r < i - 1 && i - 1 - r < 8192 && U24(ib, i - 1) == U24(ib, r)
      decreases limit - i, searching
    {
      var s := U24(ib, i);
      var h := hash(s);
      r := if h in ht then ht[h] else 0;
      ht := ht[h := i];
      same := i - r < 8192 && U24(ib, r) == s;
      if i < limit {
        i := i + 1;
        searching := !same;
      } else {
        searching := false;
      }
    }
    found := i < limit;
    if found {
      i := i - 1;
      U24Equal(ib, i, r);
    }
  }

  /** Compresses with any hash function: the output always decodes to the input, and is longer than it by at most
      one byte in 32. */
  method Compress(ib: seq<Byte>, hash: nat -> nat) returns (ob: seq<Byte>)
    ensures Decode(ob) == ib
    ensures 32 * |ob| <= 33 * |ib| + 31
  {
    var ht: map<nat, nat> := map[];
    var a, i := 0, 2;
    ghost var tokens: seq<Token> := [];
    ob := [];
    while i + 13 < |ib|
      invariant 2 <= i && a <= i && a <= |ib|
      invariant Behind(ht, i)
      invariant Written(ib, a, ob, tokens)
      invariant 32 * |ob| <= 33 * a
      decreases |ib| - i
    {
      var r, found;
      ht, i, r, found := FindMatch(ib, hash, ht, i);
      if !found {
        break;
      }
      if i > a {
        ob, tokens := WriteLiterals(ib, a, i, ob, tokens);
      }
      var l := MatchLength(ib, r, i);
      ob, tokens := WriteMatch(ib, i, i - r - 1, l, ob, tokens);
      i := i + l;
      ht := ht[hash(U24(ib, i)) := i];
      i := i + 1;
      ht := ht[hash(U24(ib, i)) := i];
      i := i + 1;
      a := i;
    }
    ob, tokens := WriteLiterals(ib, a, |ib|, ob, tokens);
    assert ib[..|ib|] == ib;
    assert ob[0..] == ob;
    DecodeTokens(ob, 0, tokens, []);
  }

  // ---------------------------------------------------------------- on hex strings

  /** The hex front end: bad input is refused as `ReadBytes` refuses it, anything else compresses to a string that
      decompresses to the same bytes. */
  method FlzCompress(data: string, hash: nat -> nat) returns (r: Result<string, HexError>)
    ensures match ReadBytes(data)
            case Err(e) => r == Err(e)
            case Ok(bytes) => r.Ok? && ReadBytes(r.value).Ok? && Decode(ReadBytes(r.value).value) == bytes
  {
    var bytes :- ReadBytes(data);
    var ob := Compress(bytes, hash);
    PrintedBytesReadBack(ob);
    return Ok(BytesToHex(ob));
  }

  method FlzDecompress(data: string) returns (r: Result<string, HexError>)
    ensures match ReadBytes(data)
            case Err(e) => r == Err(e)
            case Ok(bytes) => r == Ok(BytesToHex(Decode(bytes)))
  {
    var bytes :- ReadBytes(data);
    var ob := Decompress(bytes);
    return Ok(BytesToHex(ob));
  }

  /** Decompressing a compressed string prints the original bytes in canonical form. */
  method FlzRoundTrip(data: string, hash: nat -> nat) returns (r: Result<string, HexError>)
    ensures match ReadBytes(data)
            case Err(e) => r == Err(e)
            case Ok(bytes) => r == Ok(BytesToHex(bytes))
  {
    var packed :- FlzCompress(data, hash);
    r := FlzDecompress(packed);
  }
}
