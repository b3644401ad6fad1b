/** Wire formats read by the POSIX DNS client: SVCB/HTTPS service parameters (section 2.2 of RFC 9460)
    and TXT character-strings (sections 3.3 and 3.3.14 of RFC 1035). Encoders are the specification. */
module DnsWire {
  import opened Options

  newtype uint8 = x: int | 0 <= x < 0x100
  newtype uint16 = x: int | 0 <= x < 0x1_0000

  type Bytes = seq<uint8>

  const KEY_MANDATORY: uint16 := 0
  const KEY_ALPN: uint16 := 1
  const KEY_NO_DEF_ALPN: uint16 := 2
  const KEY_PORT: uint16 := 3
  const KEY_IPV4HINT: uint16 := 4
  const KEY_ECH: uint16 := 5
  const KEY_IPV6HINT: uint16 := 6
  const KEY_DOH_PATH: uint16 := 7

  const IPV4_SIZE: nat := 4
  const IPV6_SIZE: nat := 16

  datatype SvcbParam =
    | NoDefaultAlpn
    | Mandatory(keys: seq<uint16>)
    | DohPath(path: Bytes)
    | Port(port: uint16)
    | Alpn(ids: seq<Bytes>)
    | Ipv4Hint(v4: seq<Bytes>)
    | Ipv6Hint(v6: seq<Bytes>)

  // ----- encoders

  function Put16(n: int): Bytes
    requires 0 <= n < 0x1_0000
  {
    [(n / 0x100) as uint8, (n % 0x100) as uint8]
  }

  function EncodeKeys(keys: seq<uint16>): Bytes {
    if keys == [] then [] else Put16(keys[0] as int) + EncodeKeys(keys[1..])
  }

  function Concat(parts: seq<Bytes>): Bytes {
    if parts == [] then [] else parts[0] + Concat(parts[1..])
  }

  predicate AllShort(parts: seq<Bytes>) {
    forall i :: 0 <= i < |parts| ==> |parts[i]| <= 255
  }

  predicate AllOfSize(parts: seq<Bytes>, size: nat) {
    forall i :: 0 <= i < |parts| ==> |parts[i]| == size
  }

  /** Character-strings: a length byte before each part. */
  function EncodeStrings(parts: seq<Bytes>): Bytes
    requires AllShort(parts)
  {
    if parts == [] then [] else [|parts[0]| as uint8] + parts[0] + EncodeStrings(parts[1..])
  }

  function Key(p: SvcbParam): uint16 {
    match p
    case NoDefaultAlpn => KEY_NO_DEF_ALPN
    case Mandatory(_) => KEY_MANDATORY
    case DohPath(_) => KEY_DOH_PATH
    case Port(_) => KEY_PORT
    case Alpn(_) => KEY_ALPN
    case Ipv4Hint(_) => KEY_IPV4HINT
    case Ipv6Hint(_) => KEY_IPV6HINT
  }

  /** Parts have the sizes the format gives them. */
  predicate WellFormed(p: SvcbParam) {
    && (p.Alpn? ==> AllShort(p.ids))
    && (p.Ipv4Hint? ==> AllOfSize(p.v4, IPV4_SIZE))
    && (p.Ipv6Hint? ==> AllOfSize(p.v6, IPV6_SIZE))
  }

  function EncodeValue(p: SvcbParam): Bytes
    requires WellFormed(p)
  {
    match p
    case NoDefaultAlpn => []
    case Mandatory(keys) => EncodeKeys(keys)
    case DohPath(path) => path
    case Port(port) => Put16(port as int)
    case Alpn(ids) => EncodeStrings(ids)
    case Ipv4Hint(v4) => Concat(v4)
    case Ipv6Hint(v6) => Concat(v6)
  }

  /** The 16-bit length field has to hold the value's length. */
  predicate Encodable(p: SvcbParam) {
    WellFormed(p) && |EncodeValue(p)| < 0x1_0000
  }

  /** A complete parameter of any key, known or not. */
  datatype Block = Block(key: uint16, value: Bytes)

  predicate Fits(b: Block) {
    |b.value| < 0x1_0000
  }

  function EncodeBlock(b: Block): Bytes
    requires Fits(b)
  {
    Put16(b.key as int) + Put16(|b.value|) + b.value
  }

  predicate AllFit(bs: seq<Block>) {
    forall i :: 0 <= i < |bs| ==> Fits(bs[i])
  }

  function EncodeBlocks(bs: seq<Block>): Bytes
    requires AllFit(bs)
  {
    if bs == [] then [] else EncodeBlock(bs[0]) + EncodeBlocks(bs[1..])
  }

  predicate AllEncodable(ps: seq<SvcbParam>) {
    forall i :: 0 <= i < |ps| ==> Encodable(ps[i])
  }

  function BlocksOf(ps: seq<SvcbParam>): (bs: seq<Block>)
    requires AllEncodable(ps)
    ensures AllFit(bs) && |bs| == |ps|
  {
    if ps == [] then [] else [Block(Key(ps[0]), EncodeValue(ps[0]))] + BlocksOf(ps[1..])
  }

  // ----- what the parsers compute

  function Get16(b: Bytes, i: nat): uint16
    requires i + 1 < |b|
  {
    (b[i] as int * 0x100 + b[i + 1] as int) as uint16
  }

  function DecodeKeys(v: Bytes): seq<uint16>
    requires |v| % 2 == 0
  {
    if v == [] then [] else [Get16(v, 0)] + DecodeKeys(v[2..])
  }

  /** Whether n bytes hold a whole number of addresses of 4 or 16 bytes. */
  predicate Whole(n: nat, size: nat) {
    (size == IPV4_SIZE && n % 4 == 0) || (size == IPV6_SIZE && n % 16 == 0)
  }

  function Chunks(v: Bytes, size: nat): seq<Bytes>
    requires Whole(|v|, size)
  {
    if v == [] then [] else [v[..size]] + Chunks(v[size..], size)
  }

  function DecodeStrings(v: Bytes): Option<seq<Bytes>> {
    if v == [] then Some([])
    else
      var l := v[0] as nat;
      if |v| < 1 + l then None
      else
        match DecodeStrings(v[1 + l..])
        case Some(rest) => Some([v[1..1 + l]] + rest)
        case None => None
  }

  /** What one complete parameter adds to the result: nothing if it is unknown or malformed. */
  function DecodeValue(key: uint16, v: Bytes): seq<SvcbParam> {
    if key == KEY_ALPN then
      match DecodeStrings(v) case Some(ids) => [Alpn(ids)] case None => []
    else if key == KEY_PORT then
      if |v| == 2 then [Port(Get16(v, 0))] else []
    else if key == KEY_MANDATORY then
      if |v| % 2 == 0 then [Mandatory(DecodeKeys(v))] else []
    else if key == KEY_IPV4HINT then
      if Whole(|v|, IPV4_SIZE) then [Ipv4Hint(Chunks(v, IPV4_SIZE))] else []
    else if key == KEY_IPV6HINT then
      if Whole(|v|, IPV6_SIZE) then [Ipv6Hint(Chunks(v, IPV6_SIZE))] else []
    else if key == KEY_NO_DEF_ALPN then [NoDefaultAlpn]
    else if key == KEY_DOH_PATH then [DohPath(v)]
    else []
  }

  /** Fewer bytes than a header, or than the header announces. */
  predicate Truncated(b: Bytes) {
    |b| < 4 || |b| < 4 + Get16(b, 2) as nat
  }

  function DecodeParams(b: Bytes): seq<SvcbParam> {
    if Truncated(b) then []
    else
      var len := Get16(b, 2) as nat;
      DecodeValue(Get16(b, 0), b[4..4 + len]) + DecodeParams(b[4 + len..])
  }

  function DecodeBlocks(bs: seq<Block>): seq<SvcbParam> {
    if bs == [] then [] else DecodeValue(bs[0].key, bs[0].value) + DecodeBlocks(bs[1..])
  }

  function DecodeTxt(b: Bytes): Option<Bytes> {
    match DecodeStrings(b) case Some(parts) => Some(Concat(parts)) case None => None
  }

  // ----- the parser loops. Every index stays inside the bytes given, and 16-bit counters do not wrap.

  /** One length-prefixed string at q. */
  lemma {:induction false} StringsAt(v: Bytes, q: nat)
    requires q < |v|
    ensures var next := q + 1 + v[q] as nat;
      if |v| < next then DecodeStrings(v[q..]).None?
      else
        && (DecodeStrings(v[q..]).Some? <==> DecodeStrings(v[next..]).Some?)
        && (DecodeStrings(v[q..]).Some? ==>
              DecodeStrings(v[q..]).value == [v[q + 1..next]] + DecodeStrings(v[next..]).value)
  {
    var rest, l := v[q..], v[q] as nat;
    if q + 1 + l <= |v| {
      assert rest[1..1 + l] == v[q + 1..q + 1 + l] && rest[1 + l..] == v[q + 1 + l..];
    }
  }

  method ReadAlpns(v: Bytes) returns (valid: bool, alpns: seq<Bytes>)
    ensures valid <==> DecodeStrings(v).Some?
    ensures valid ==> Some(alpns) == DecodeStrings(v)
  {
    alpns := [];
    var q := 0;
    assert v[0..] == v;
    while q < |v|
      invariant 0 <= q <= |v|
      invariant DecodeStrings(v).Some? <==> DecodeStrings(v[q..]).Some?
      invariant DecodeStrings(v).Some? ==> DecodeStrings(v).value == alpns + DecodeStrings(v[q..]).value
    {
      StringsAt(v, q);
      ghost var before := alpns;
      var l := v[q];
      q := q + 1;
      if |v| < q + l as int {
        return false, alpns;
      }
      var value := v[q..q + l as int];
      alpns := alpns + [value];
      q := q + l as int;
      assert forall rest: seq<Bytes> :: before + ([value] + rest) == alpns + rest;
    }
    assert alpns + [] == alpns;
    valid := true;
  }

  method ReadKeys(v: Bytes) returns (keys: seq<uint16>)
    requires |v| < 0x1_0000 && |v| % 2 == 0
    ensures keys == DecodeKeys(v)
  {
    keys := [];
    var len, idx: uint16 := |v| as uint16, 0;
    assert v[0..] == v;
    while idx < len
      invariant idx <= len && idx as int % 2 == 0
      invariant DecodeKeys(v) == keys + DecodeKeys(v[idx as int..])
    {
      ghost var rest := v[idx as int..];
      assert rest[2..] == v[idx as int + 2..];
      keys := keys + [Get16(v, idx as int)];
      idx := idx + 2;
    }
  }

  /** One address at idx. */
  lemma {:induction false} ChunksAt(v: Bytes, idx: nat, size: nat)
    requires idx < |v| && Whole(|v| - idx, size)
    ensures idx + size <= |v| && Whole(|v| - idx - size, size)
    ensures Chunks(v[idx..], size) == [v[idx..idx + size]] + Chunks(v[idx + size..], size)
  {
    var rest := v[idx..];
    assert rest[..size] == v[idx..idx + size] && rest[size..] == v[idx + size..];
  }

  method ReadAddresses(v: Bytes, size: uint16) returns (addresses: seq<Bytes>)
    requires |v| < 0x1_0000 && Whole(|v|, size as nat)
    ensures addresses == Chunks(v, size as nat)
  {
    addresses := [];
    var len, idx: uint16 := |v| as uint16, 0;
    assert v[0..] == v;
    while idx < len
      invariant idx <= len && Whole(|v| - idx as int, size as nat)
      invariant Chunks(v, size as nat) == addresses + Chunks(v[idx as int..], size as nat)
    {
      ChunksAt(v, idx as nat, size as nat);
      ghost var more := Chunks(v[idx as int + size as int..], size as nat);
      assert forall first: Bytes :: addresses + ([first] + more) == addresses + [first] + more;
      addresses := addresses + [v[idx as int..idx as int + size as int]];
      idx := idx + size;
    }
  }

  /** The switch over the key of one complete parameter. */
  method AddParam(params: seq<SvcbParam>, key: uint16, v: Bytes) returns (retval: seq<SvcbParam>)
    requires |v| < 0x1_0000
    ensures retval == params + DecodeValue(key, v)
  {
    var len := |v| as uint16;
    retval := params;
    if key == KEY_ALPN {
      var valid, alpns := ReadAlpns(v);
      if valid {
        retval := retval + [Alpn(alpns)];
      }
    } else if key == KEY_PORT {
      if len == 2 {
        retval := retval + [Port(Get16(v, 0))];
      }
    } else if key == KEY_MANDATORY {
      if len % 2 == 0 {
        var keys := ReadKeys(v);
        retval := retval + [Mandatory(keys)];
      }
    } else if key == KEY_IPV4HINT {
      if len % 4 == 0 {
        var ipv4s := ReadAddresses(v, 4);
        retval := retval + [Ipv4Hint(ipv4s)];
      }
    } else if key == KEY_IPV6HINT {
      if len % 16 == 0 {
        var ipv6s := ReadAddresses(v, 16);
        retval := retval + [Ipv6Hint(ipv6s)];
      }
    } else if key == KEY_NO_DEF_ALPN {
      retval := retval + [NoDefaultAlpn];
    } else if key == KEY_DOH_PATH {
      retval := retval + [DohPath(v)];
    }
  }

  /** The parameter whose header starts at p. */
  predicate CompleteAt(data: Bytes, p: nat) {
    p + 4 <= |data| && p + 4 + Get16(data, p + 2) as nat <= |data|
  }

  function NextAt(data: Bytes, p: nat): nat
    requires CompleteAt(data, p)
  {
    p + 4 + Get16(data, p + 2) as nat
  }

  lemma {:induction false} HeaderAt(data: Bytes, p: nat)
    requires p + 4 <= |data|
    ensures Get16(data[p..], 0) == Get16(data, p) && Get16(data[p..], 2) == Get16(data, p + 2)
  {
    var rest := data[p..];
    assert rest[0] == data[p] && rest[1] == data[p + 1] && rest[2] == data[p + 2] && rest[3] == data[p + 3];
  }

  lemma {:induction false} DecodeParamsAt(data: Bytes, p: nat)
    requires p <= |data|
    ensures !CompleteAt(data, p) ==> DecodeParams(data[p..]) == []
    ensures CompleteAt(data, p) ==>
      DecodeParams(data[p..]) ==
        DecodeValue(Get16(data, p), data[p + 4..NextAt(data, p)]) + DecodeParams(data[NextAt(data, p)..])
  {
    var rest := data[p..];
    if p + 4 <= |data| {
      HeaderAt(data, p);
      if CompleteAt(data, p) {
        var len := Get16(data, p + 2) as nat;
        assert rest[4..4 + len] == data[p + 4..NextAt(data, p)];
        assert rest[4 + len..] == data[NextAt(data, p)..];
      }
    }
  }

  /** The parameters from position p on. */
  function ParamsFrom(data: Bytes, p: nat): seq<SvcbParam>
    decreases |data| - p
  {
    if CompleteAt(data, p) then
      DecodeValue(Get16(data, p), data[p + 4..NextAt(data, p)]) + ParamsFrom(data, NextAt(data, p))
    else []
  }

  lemma {:induction false} ParamsFromSlice(data: Bytes, p: nat)
    requires p <= |data|
    ensures ParamsFrom(data, p) == DecodeParams(data[p..])
    decreases |data| - p
  {
    DecodeParamsAt(data, p);
    if CompleteAt(data, p) {
      ParamsFromSlice(data, NextAt(data, p));
    }
  }

  method ResolveParams(data: Bytes) returns (retval: seq<SvcbParam>)
    ensures retval == DecodeParams(data)
  {
    retval := [];
    var p := 0;
    ghost var all := DecodeParams(data);
    assert all == ParamsFrom(data, 0) by {
      assert data[0..] == data;
      ParamsFromSlice(data, 0);
    }
    while p + 4 <= |data|
      invariant 0 <= p <= |data|
      invariant all == retval + ParamsFrom(data, p)
    {
      ghost var before, rest := retval, ParamsFrom(data, p);
      var key := Get16(data, p);
      var len := Get16(data, p + 2);
      p := p + 4;
      if |data| < p + len as int {
        return;
      }
      retval := AddParam(retval, key, data[p..p + len as int]);
      ghost var added := DecodeValue(key, data[p..p + len as int]);
      p := p + len as int;
      ghost var left := ParamsFrom(data, p);
      assert rest == added + left;
      Associative(before, added, left);
      assert all == (before + added) + left;
    }
  }

  lemma {:induction false} Associative(a: seq<SvcbParam>, b: seq<SvcbParam>, c: seq<SvcbParam>)
    ensures a + (b + c) == a + b + c
  {
  }

  method ReadTxt(rdata: Bytes) returns (valid: bool, item: Bytes)
    ensures valid <==> DecodeTxt(rdata).Some?
    ensures valid ==> Some(item) == DecodeTxt(rdata)
  {
    item, valid := [], true;
    var p, next := 0, 0;
    assert rdata[0..] == rdata;
    while p < |rdata|
      invariant 0 <= p <= |rdata|
      invariant DecodeTxt(rdata).Some? <==> DecodeTxt(rdata[p..]).Some?
      invariant DecodeTxt(rdata).Some? ==> DecodeTxt(rdata).value == item + DecodeTxt(rdata[p..]).value
    {
      ghost var rest := rdata[p..];
      var textLen := rdata[p];
      p := p + 1;
      next := p + textLen as int;
      if |rdata| < next {
        return false, item;
      }
      assert rest[1..1 + textLen as nat] == rdata[p..next] && rest[1 + textLen as nat..] == rdata[next..];
      item := item + rdata[p..next];
      p := next;
    }
    assert item + [] == item;
  }
}
