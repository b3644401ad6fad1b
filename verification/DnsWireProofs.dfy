/** The parsers of `DnsWire` invert the encoders, for every input and in both directions. */
module DnsWireProofs {
  import opened DnsWire
  import opened Options

  lemma {:induction false} Get16OfPut16(n: uint16, rest: Bytes)
    ensures Get16(Put16(n as int) + rest, 0) == n
  {
  }

  lemma {:induction false} Put16OfGet16(v: Bytes)
    requires 2 <= |v|
    ensures Put16(Get16(v, 0) as int) == v[..2]
  {
  }

  lemma {:induction false} KeysDecode(keys: seq<uint16>)
    ensures |EncodeKeys(keys)| == 2 * |keys| && DecodeKeys(EncodeKeys(keys)) == keys
  {
    if keys != [] {
      KeysDecode(keys[1..]);
      Get16OfPut16(keys[0], EncodeKeys(keys[1..]));
      assert EncodeKeys(keys)[2..] == EncodeKeys(keys[1..]);
    }
  }

  lemma {:induction false} KeysEncode(v: Bytes)
    requires |v| % 2 == 0
    ensures EncodeKeys(DecodeKeys(v)) == v
  {
    if v != [] {
      KeysEncode(v[2..]);
      Put16OfGet16(v);
      assert DecodeKeys(v)[1..] == DecodeKeys(v[2..]);
      assert v == v[..2] + v[2..];
    }
  }

  lemma {:induction false} ChunksDecode(parts: seq<Bytes>, size: nat)
    requires (size == IPV4_SIZE || size == IPV6_SIZE) && AllOfSize(parts, size)
    ensures Whole(|Concat(parts)|, size) && Chunks(Concat(parts), size) == parts
  {
    if parts != [] {
      ChunksDecode(parts[1..], size);
      assert Concat(parts)[..size] == parts[0];
      assert Concat(parts)[size..] == Concat(parts[1..]);
    }
  }

  lemma {:induction false} ChunksEncode(v: Bytes, size: nat)
    requires Whole(|v|, size)
    ensures AllOfSize(Chunks(v, size), size) && Concat(Chunks(v, size)) == v
  {
    if v != [] {
      ChunksEncode(v[size..], size);
      assert Chunks(v, size)[1..] == Chunks(v[size..], size);
      assert v == v[..size] + v[size..];
    }
  }

  lemma {:induction false} StringsDecode(parts: seq<Bytes>)
    requires AllShort(parts)
    ensures DecodeStrings(EncodeStrings(parts)) == Some(parts)
  {
    if parts != [] {
      StringsDecode(parts[1..]);
      var v, l := EncodeStrings(parts), |parts[0]|;
      assert v[1..1 + l] == parts[0];
      assert v[1 + l..] == EncodeStrings(parts[1..]);
      assert parts == [parts[0]] + parts[1..];
    }
  }

  lemma {:induction false} EncodeStringsCons(part: Bytes, parts: seq<Bytes>)
    requires |part| <= 255 && AllShort(parts)
    ensures AllShort([part] + parts)
    ensures EncodeStrings([part] + parts) == [|part| as uint8] + part + EncodeStrings(parts)
  {
    assert ([part] + parts)[1..] == parts;
  }

  /** The first string of a valid list, and the rest. */
  lemma {:induction false} DecodeStringsSplit(v: Bytes, parts: seq<Bytes>)
    requires v != [] && DecodeStrings(v) == Some(parts)
    ensures parts != [] && 1 + v[0] as nat <= |v| && parts[0] == v[1..1 + v[0] as nat]
    ensures DecodeStrings(v[1 + v[0] as nat..]) == Some(parts[1..])
    ensures v == [v[0]] + parts[0] + v[1 + v[0] as nat..]
  {
    var l := v[0] as nat;
    var tail := DecodeStrings(v[1 + l..]);
    assert parts == [v[1..1 + l]] + tail.value;
  }

  lemma {:induction false} StringsEncode(v: Bytes, parts: seq<Bytes>)
    requires DecodeStrings(v) == Some(parts)
    ensures AllShort(parts) && EncodeStrings(parts) == v
  {
    if v != [] {
      DecodeStringsSplit(v, parts);
      var rest := v[1 + v[0] as nat..];
      StringsEncode(rest, parts[1..]);
      EncodeStringsCons(parts[0], parts[1..]);
      assert parts == [parts[0]] + parts[1..];
    }
  }

  // ----- one parameter

  /** A complete parameter yields p exactly when its key is p's and its value is p's encoding, except
      that any value is taken for no-default-alpn. It never yields more than one. */
  lemma {:induction false} ValueExact(key: uint16, v: Bytes, p: SvcbParam)
    ensures |DecodeValue(key, v)| <= 1
    ensures DecodeValue(key, v) == [p] <==>
      WellFormed(p) && Key(p) == key && (p.NoDefaultAlpn? || EncodeValue(p) == v)
  {
    if WellFormed(p) && Key(p) == key && (p.NoDefaultAlpn? || EncodeValue(p) == v) {
      ValueDecodes(p);
    }
    if DecodeValue(key, v) == [p] {
      ValueEncodes(key, v, p);
    }
  }

  lemma {:induction false} ValueDecodes(p: SvcbParam)
    requires WellFormed(p)
    ensures DecodeValue(Key(p), EncodeValue(p)) == [p]
  {
    match p
    case Mandatory(keys) => KeysDecode(keys);
    case Alpn(ids) => StringsDecode(ids);
    case Ipv4Hint(v4) => ChunksDecode(v4, IPV4_SIZE);
    case Ipv6Hint(v6) => ChunksDecode(v6, IPV6_SIZE);
    case _ =>
  }

  lemma {:induction false} ValueEncodes(key: uint16, v: Bytes, p: SvcbParam)
    requires DecodeValue(key, v) == [p]
    ensures WellFormed(p) && Key(p) == key && (p.NoDefaultAlpn? || EncodeValue(p) == v)
  {
    match p
    case Mandatory(_) => KeysEncode(v);
    case Alpn(ids) => StringsEncode(v, ids);
    case Ipv4Hint(_) => ChunksEncode(v, IPV4_SIZE);
    case Ipv6Hint(_) => ChunksEncode(v, IPV6_SIZE);
    case Port(_) => Put16OfGet16(v);
    case _ =>
  }

  /** The numbers of section 14.3.2 of RFC 9460 and section 5 of RFC 9461, as they stand on the wire. */
  function RegisteredKey(p: SvcbParam): uint8 {
    match p
    case Mandatory(_) => 0
    case Alpn(_) => 1
    case NoDefaultAlpn => 2
    case Port(_) => 3
    case Ipv4Hint(_) => 4
    case Ipv6Hint(_) => 6
    case DohPath(_) => 7
  }

  /** The bytes of one parameter, written out. */
  function Wire(p: SvcbParam): Bytes
    requires Encodable(p)
  {
    var n := |EncodeValue(p)|;
    [0, RegisteredKey(p), (n / 0x100) as uint8, (n % 0x100) as uint8] + EncodeValue(p)
  }

  lemma {:induction false} WireIsBlock(p: SvcbParam)
    requires Encodable(p)
    ensures EncodeBlock(Block(Key(p), EncodeValue(p))) == Wire(p)
  {
    assert Put16(Key(p) as int) == [0, RegisteredKey(p)];
  }

  /** A parameter is written with its registered number, and bytes with that number, a fitting length and the
      parameter's value are read as it. */
  lemma {:induction false} OnTheWire(p: SvcbParam)
    requires Encodable(p)
    ensures EncodeBlocks(BlocksOf([p])) == Wire(p) && DecodeParams(Wire(p)) == [p]
  {
    var b := Block(Key(p), EncodeValue(p));
    WireIsBlock(p);
    assert [p][1..] == [] && BlocksOf([p]) == [b];
    EncodeBlocksCons(b, []);
    assert [b] + [] == [b] && EncodeBlock(b) + [] == EncodeBlock(b);
    ParamsRoundTrip([p], []);
  }

  /** Only these seven keys ever yield anything. */
  lemma KeysExact(key: uint16)
    ensures (exists v: Bytes :: DecodeValue(key, v) != []) <==> key <= 7 && key != 5
  {
    if key <= 7 && key != 5 {
      assert DecodeValue(key, if key == 3 then [0, 0] else []) != [];
    }
  }

  // ----- whole parameter lists

  lemma {:induction false} BlockFirst(b: Block, rest: Bytes)
    requires Fits(b)
    ensures DecodeParams(EncodeBlock(b) + rest) == DecodeValue(b.key, b.value) + DecodeParams(rest)
  {
    var data, len := EncodeBlock(b) + rest, |b.value|;
    assert Get16(data, 0) == b.key && Get16(data, 2) as nat == len;
    assert data[4..4 + len] == b.value && data[4 + len..] == rest;
  }

  /** Parsing distributes over concatenation after any block of complete parameters. */
  lemma {:induction false} BlocksFirst(bs: seq<Block>, rest: Bytes)
    requires AllFit(bs)
    ensures DecodeParams(EncodeBlocks(bs) + rest) == DecodeBlocks(bs) + DecodeParams(rest)
  {
    if bs == [] {
      assert EncodeBlocks(bs) + rest == rest;
    } else {
      var tail := EncodeBlocks(bs[1..]) + rest;
      assert EncodeBlocks(bs) + rest == EncodeBlock(bs[0]) + tail by {
        ThreeParts(EncodeBlock(bs[0]), EncodeBlocks(bs[1..]), rest);
      }
      assert DecodeParams(tail) == DecodeBlocks(bs[1..]) + DecodeParams(rest) by { BlocksFirst(bs[1..], rest); }
      BlockThenRest(bs[0], tail, DecodeBlocks(bs[1..]), DecodeParams(rest));
    }
  }

  lemma {:induction false} BlockThenRest(b: Block, tail: Bytes, more: seq<SvcbParam>, last: seq<SvcbParam>)
    requires Fits(b) && DecodeParams(tail) == more + last
    ensures DecodeParams(EncodeBlock(b) + tail) == DecodeValue(b.key, b.value) + more + last
  {
    BlockFirst(b, tail);
    Associative(DecodeValue(b.key, b.value), more, last);
  }

  lemma {:induction false} BlocksOfDecode(ps: seq<SvcbParam>)
    requires AllEncodable(ps)
    ensures DecodeBlocks(BlocksOf(ps)) == ps
  {
    if ps != [] {
      BlocksOfDecode(ps[1..]);
      var first, rest := BlocksOf(ps)[0], BlocksOf(ps)[1..];
      assert rest == BlocksOf(ps[1..]);
      assert DecodeValue(first.key, first.value) == [ps[0]] by { ValueDecodes(ps[0]); }
      assert DecodeBlocks(BlocksOf(ps)) == [ps[0]] + DecodeBlocks(rest);
    }
  }

  /** Any list of known parameters with encodable lengths comes back unchanged and in order, with a
      truncated tail behind it or without. */
  lemma {:induction false} ParamsRoundTrip(ps: seq<SvcbParam>, tail: Bytes)
    requires AllEncodable(ps) && Truncated(tail)
    ensures DecodeParams(EncodeBlocks(BlocksOf(ps))) == ps
    ensures DecodeParams(EncodeBlocks(BlocksOf(ps)) + tail) == ps
  {
    BlocksOfDecode(ps);
    BlocksFirst(BlocksOf(ps), tail);
    BlocksFirst(BlocksOf(ps), []);
    assert EncodeBlocks(BlocksOf(ps)) + [] == EncodeBlocks(BlocksOf(ps));
    assert ps + [] == ps;
  }

  /** A block that yields nothing can be left out. */
  lemma {:induction false} DropBlock(before: seq<Block>, b: Block, after: seq<Block>)
    requires DecodeValue(b.key, b.value) == []
    ensures DecodeBlocks(before + [b] + after) == DecodeBlocks(before + after)
  {
    if before == [] {
      assert (before + [b] + after)[1..] == before + after;
    } else {
      DropBlock(before[1..], b, after);
      assert (before + [b] + after)[1..] == before[1..] + [b] + after;
      assert (before + after)[1..] == before[1..] + after;
    }
  }

  /** ECH, and every key above those of RFC 9460 and RFC 9461. */
  predicate Unknown(key: uint16) {
    key == 5 || 7 < key
  }

  lemma {:induction false} UnknownYieldsNothing(key: uint16, v: Bytes)
    ensures Unknown(key) ==> DecodeValue(key, v) == []
  {
  }

  /** A complete parameter that yields nothing, because its key is ECH or unknown or its value is
      malformed, can stand anywhere without changing anything else. */
  lemma {:induction false} DroppedAlone(before: seq<Block>, b: Block, after: seq<Block>, rest: Bytes)
    requires AllFit(before) && Fits(b) && AllFit(after)
    requires Unknown(b.key) || DecodeValue(b.key, b.value) == []
    ensures DecodeParams(EncodeBlocks(before + [b] + after) + rest) == DecodeParams(EncodeBlocks(before + after) + rest)
  {
    var longer, shorter := before + [b] + after, before + after;
    UnknownYieldsNothing(b.key, b.value);
    assert DecodeBlocks(longer) == DecodeBlocks(shorter) by { DropBlock(before, b, after); }
    assert DecodeParams(EncodeBlocks(longer) + rest) == DecodeBlocks(longer) + DecodeParams(rest) by {
      BlocksFirst(longer, rest);
    }
    assert DecodeParams(EncodeBlocks(shorter) + rest) == DecodeBlocks(shorter) + DecodeParams(rest) by {
      BlocksFirst(shorter, rest);
    }
  }

  /** The complete parameters at the front of any byte string. */
  function SplitBlocks(b: Bytes): (r: (seq<Block>, Bytes))
    ensures AllFit(r.0) && Truncated(r.1)
  {
    if Truncated(b) then ([], b)
    else
      var len := Get16(b, 2) as nat;
      var (blocks, tail) := SplitBlocks(b[4 + len..]);
      ([Block(Get16(b, 0), b[4..4 + len])] + blocks, tail)
  }

  lemma {:induction false} EncodeBlocksCons(b: Block, bs: seq<Block>)
    requires Fits(b) && AllFit(bs)
    ensures AllFit([b] + bs) && EncodeBlocks([b] + bs) == EncodeBlock(b) + EncodeBlocks(bs)
  {
    assert ([b] + bs)[1..] == bs;
  }

  /** The block at the front of untruncated bytes, encoded again. */
  lemma {:induction false} FirstBlock(b: Bytes)
    requires !Truncated(b)
    ensures var len := Get16(b, 2) as nat;
      Fits(Block(Get16(b, 0), b[4..4 + len])) && EncodeBlock(Block(Get16(b, 0), b[4..4 + len])) == b[..4 + len]
  {
    var len := Get16(b, 2) as nat;
    Put16OfGet16(b);
    Put16OfGet16(b[2..]);
    assert Get16(b[2..], 0) == Get16(b, 2);
    assert b[..4 + len] == b[..2] + b[2..][..2] + b[4..4 + len];
  }

  /** Every byte string is its complete parameters and a truncated tail. */
  lemma {:induction false} SplitExact(b: Bytes)
    ensures EncodeBlocks(SplitBlocks(b).0) + SplitBlocks(b).1 == b
  {
    if !Truncated(b) {
      var len := Get16(b, 2) as nat;
      var first, rest := Block(Get16(b, 0), b[4..4 + len]), b[4 + len..];
      SplitExact(rest);
      FirstBlock(b);
      Rejoin(first, SplitBlocks(rest).0, SplitBlocks(rest).1, rest);
      SplitStep(b);
      assert b == b[..4 + len] + rest;
    }
  }

  lemma {:induction false} SplitStep(b: Bytes)
    requires !Truncated(b)
    ensures var len := Get16(b, 2) as nat; var rest := SplitBlocks(b[4 + len..]);
      SplitBlocks(b) == ([Block(Get16(b, 0), b[4..4 + len])] + rest.0, rest.1)
  {
  }

  lemma {:induction false} Rejoin(first: Block, blocks: seq<Block>, tail: Bytes, rest: Bytes)
    requires Fits(first) && AllFit(blocks) && EncodeBlocks(blocks) + tail == rest
    ensures AllFit([first] + blocks) && EncodeBlocks([first] + blocks) + tail == EncodeBlock(first) + rest
  {
    EncodeBlocksCons(first, blocks);
    ThreeParts(EncodeBlock(first), EncodeBlocks(blocks), tail);
  }

  lemma {:induction false} ThreeParts(a: Bytes, b: Bytes, c: Bytes)
    ensures a + b + c == a + (b + c)
  {
  }

  /** For every byte string there is one way to see it as complete parameters and a truncated tail, and
      the result is exactly that of the complete ones: the tail contributes nothing. */
  lemma {:induction false} TruncatedTail(b: Bytes, blocks: seq<Block>, tail: Bytes)
    requires AllFit(blocks) && Truncated(tail) && b == EncodeBlocks(blocks) + tail
    ensures DecodeParams(b) == DecodeBlocks(blocks)
    ensures SplitBlocks(b) == (blocks, tail)
  {
    BlocksFirst(blocks, tail);
    assert DecodeBlocks(blocks) + [] == DecodeBlocks(blocks);
    SplitUnique(blocks, tail);
  }

  lemma {:induction false} SplitFirst(b: Block, rest: Bytes)
    requires Fits(b)
    ensures SplitBlocks(EncodeBlock(b) + rest) == ([b] + SplitBlocks(rest).0, SplitBlocks(rest).1)
  {
    var data, len := EncodeBlock(b) + rest, |b.value|;
    assert Get16(data, 0) == b.key && Get16(data, 2) as nat == len;
    assert data[4..4 + len] == b.value && data[4 + len..] == rest;
  }

  lemma {:induction false} SplitUnique(blocks: seq<Block>, tail: Bytes)
    requires AllFit(blocks) && Truncated(tail)
    ensures SplitBlocks(EncodeBlocks(blocks) + tail) == (blocks, tail)
  {
    if blocks == [] {
      assert EncodeBlocks(blocks) + tail == tail;
    } else {
      SplitUnique(blocks[1..], tail);
      var rest := EncodeBlocks(blocks[1..]) + tail;
      assert blocks == [blocks[0]] + blocks[1..];
      Rejoin(blocks[0], blocks[1..], tail, rest);
      SplitFirst(blocks[0], rest);
    }
  }

  // ----- TXT records

  /** A record is valid exactly when it is a list of character-strings, and its text is their
      concatenation however it was split. */
  lemma {:induction false} TxtExact(parts: seq<Bytes>, rdata: Bytes)
    ensures AllShort(parts) ==> DecodeTxt(EncodeStrings(parts)) == Some(Concat(parts))
    ensures DecodeTxt(rdata).Some? <==> exists ps: seq<Bytes> :: AllShort(ps) && EncodeStrings(ps) == rdata
  {
    if AllShort(parts) {
      StringsDecode(parts);
    }
    if DecodeStrings(rdata).Some? {
      StringsEncode(rdata, DecodeStrings(rdata).value);
    }
    if ps: seq<Bytes> :| AllShort(ps) && EncodeStrings(ps) == rdata {
      StringsDecode(ps);
    }
  }

  /** Text cut into pieces of at most 255 bytes. */
  function CutText(text: Bytes): (parts: seq<Bytes>)
    ensures AllShort(parts)
  {
    if |text| <= 255 then [text] else [text[..255]] + CutText(text[255..])
  }

  lemma {:induction false} TextRoundTrip(text: Bytes)
    ensures DecodeTxt(EncodeStrings(CutText(text))) == Some(text)
  {
    CutTextConcat(text);
    TxtExact(CutText(text), []);
  }

  lemma {:induction false} CutTextConcat(text: Bytes)
    ensures Concat(CutText(text)) == text
  {
    if |text| <= 255 {
      assert [text][1..] == [];
      assert text + [] == text;
    } else {
      CutTextConcat(text[255..]);
      assert CutText(text)[1..] == CutText(text[255..]);
      assert text == text[..255] + text[255..];
    }
  }
}
