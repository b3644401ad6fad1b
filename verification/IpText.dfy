/** The text of addresses and ranges: printing, parsing and the two spellings of a mask. */
module IpText {
  import opened IpPrefix
  import opened Options

  // ----- decimal text

  predicate IsDigit(c: char) {
    '0' <= c <= '9'
  }

  function Digit(c: char): (d: nat)
    requires IsDigit(c)
    ensures d < 10
  {
    c as int - '0' as int
  }

  function DigitChar(d: nat): (c: char)
    requires d < 10
    ensures IsDigit(c) && Digit(c) == d
  {
    (d + '0' as int) as char
  }

  predicate AllDigits(s: string) {
    forall i :: 0 <= i < |s| ==> IsDigit(s[i])
  }

  /** Decimal without leading zeros. */
  function Dec(n: nat): (s: string)
    ensures s != "" && AllDigits(s)
  {
    if n < 10 then [DigitChar(n)] else Dec(n / 10) + [DigitChar(n % 10)]
  }

  function DecimalValue(s: string): nat
    requires AllDigits(s)
  {
    if s == "" then 0 else 10 * DecimalValue(s[..|s| - 1]) + Digit(s[|s| - 1])
  }

  lemma {:induction false} DecValue(n: nat)
    ensures DecimalValue(Dec(n)) == n
  {
    if 10 <= n {
      DecValue(n / 10);
      assert Dec(n)[..|Dec(n)| - 1] == Dec(n / 10);
    }
  }

  lemma {:induction false} DecShort(n: nat)
    requires n < 256
    ensures |Dec(n)| <= 3
  {
    if 10 <= n {
      assert n / 10 < 26;
      if 10 <= n / 10 {
        assert |Dec(n / 10 / 10)| == 1;
      }
    }
  }

  // ----- the parsers, for any address family

  /** inet_ntop and inet_pton for one family, with the sizes the templates are given. */
  datatype Codec = Codec(size: nat, strSize: nat, ntop: Bytes -> string, pton: string -> Option<Bytes>)

  datatype IpRange = IpRange(ip: Bytes, mask: Bytes)

  const INVALID_MASK := 255

  function UpToNul(s: string): string {
    if s == "" || s[0] == '\0' then "" else [s[0]] + UpToNul(s[1..])
  }

  /** The address text is copied with strncpy, so it ends at its first NUL. */
  function ParseAddress(c: Codec, text: string): Option<Bytes> {
    if c.strSize <= |text| then None else c.pton(UpToNul(text))
  }

  /** from_chars into a byte, of the whole text, at most the bits of an address. */
  function ParseMask(size: nat, text: string): nat {
    if text != "" && AllDigits(text) && DecimalValue(text) < 256 && DecimalValue(text) <= 8 * size
    then DecimalValue(text)
    else INVALID_MASK
  }

  function FindSlash(s: string): (pos: nat)
    ensures pos <= |s|
  {
    if s == "" || s[0] == '/' then 0 else 1 + FindSlash(s[1..])
  }

  function ParseRange(c: Codec, text: string): Option<IpRange> {
    var pos := FindSlash(text);
    match ParseAddress(c, text[..pos])
    case None => None
    case Some(ip) =>
      if pos == |text| then Some(IpRange(ip, MaskBytes(c.size, 8 * c.size)))
      else ParseNetmask(c, ip, text[pos + 1..])
  }

  function ParseNetmask(c: Codec, ip: Bytes, text: string): Option<IpRange> {
    if text == "" then None
    else if ParseMask(c.size, text) != INVALID_MASK then Some(IpRange(ip, MaskBytes(c.size, ParseMask(c.size, text))))
    else match ParseAddress(c, text)
      case Some(mask) => Some(IpRange(ip, mask))
      case None => None
  }

  function PrintRange(c: Codec, r: IpRange): string {
    c.ntop(r.ip) + "/" + c.ntop(r.mask)
  }

  // ----- the code that fills the buffer

  /** What a C function reads from a buffer. */
  ghost predicate HoldsText(buffer: seq<char>, text: string) {
    |text| < |buffer| && buffer[..|text|] == text && buffer[|text|] == '\0' && '\0' !in text
  }

  lemma {:induction false} UpToNulIs(s: string, n: nat)
    requires n <= |s| && '\0' !in s[..n] && (n == |s| || s[n] == '\0')
    ensures UpToNul(s) == s[..n]
  {
    if n != 0 {
      assert s[..n][0] == s[0];
      assert s[1..][..n - 1] == s[..n][1..];
      UpToNulIs(s[1..], n - 1);
    }
  }

  /** strncpy into the local buffer, then the terminator: it holds the text up to its first NUL. */
  method FillBuffer(text: string, strSize: nat) returns (buffer: array<char>)
    requires |text| < strSize
    ensures fresh(buffer) && buffer.Length == strSize
    ensures HoldsText(buffer[..], UpToNul(text))
  {
    buffer := new char[strSize];
    var n := 0;
    while n < |text| && text[n] != '\0'
      invariant 0 <= n <= |text|
      invariant buffer[..n] == text[..n] && '\0' !in text[..n]
    {
      buffer[n] := text[n];
      assert text[..n + 1] == text[..n] + [text[n]];
      n := n + 1;
    }
    UpToNulIs(text, n);
    var i := n;
    while i < |text|
      invariant n <= i <= |text|
      invariant buffer[..n] == text[..n]
      invariant forall j :: n <= j < i ==> buffer[j] == '\0'
    {
      buffer[i] := '\0';
      i := i + 1;
    }
    buffer[|text|] := '\0';
    assert buffer[..][..n] == buffer[..n];
  }

  // ----- dotted decimal

  /** inet_pton's scanner: the octets closed by a dot, the one being read, and whether it has a digit. */
  datatype Scanner = Scanner(closed: seq<nat>, current: nat, sawDigit: bool)

  const START := Scanner([], 0, false)

  function Octets(st: Scanner): nat {
    |st.closed| + if st.sawDigit then 1 else 0
  }

  function Step(st: Scanner, c: char): Option<Scanner> {
    if IsDigit(c) then
      if (st.sawDigit && st.current == 0) || 255 < st.current * 10 + Digit(c) || (!st.sawDigit && 4 < Octets(st) + 1)
      then None
      else Some(Scanner(st.closed, st.current * 10 + Digit(c), true))
    else if c == '.' && st.sawDigit && Octets(st) != 4 then Some(Scanner(st.closed + [st.current], 0, false))
    else None
  }

  /** What holds of the scanner after any text: so the four octets it returns are bytes. */
  predicate Sound(st: Scanner) {
    && |st.closed| <= 3 && (forall i :: 0 <= i < |st.closed| ==> st.closed[i] < 256)
    && st.current < 256 && (!st.sawDigit ==> st.current == 0)
  }

  function Scan(st: Scanner, s: string): (end: Option<Scanner>)
    requires Sound(st)
    ensures end.Some? ==> Sound(end.value)
    decreases |s|
  {
    if s == "" then Some(st)
    else match Step(st, s[0])
      case None => None
      case Some(next) => Scan(next, s[1..])
  }

  /** The byte with a given number. */
  function ByteOf(n: nat): bv8 {
    if n == 0 then 0 else (ByteOf(n / 2) << 1) | (if n % 2 == 1 then 1 else 0)
  }

  function Pton4(s: string): Option<Bytes> {
    match Scan(START, s)
    case None => None
    case Some(end) =>
      if Octets(end) < 4 then None
      else Some([ByteOf(end.closed[0]), ByteOf(end.closed[1]), ByteOf(end.closed[2]), ByteOf(end.current)])
  }

  function Ntop4(b: Bytes): string {
    if |b| == IPV4_SIZE then ClosedText([Num(b[0]), Num(b[1]), Num(b[2])]) + Dec(Num(b[3])) else ""
  }

  function ClosedText(octets: seq<nat>): string {
    if octets == [] then "" else ClosedText(octets[..|octets| - 1]) + Dec(octets[|octets| - 1]) + "."
  }

  const V4 := Codec(IPV4_SIZE, 16, Ntop4, Pton4)

  // ----- dotted decimal is exact

  /** The text a scanner has read. */
  function Text(st: Scanner): string {
    ClosedText(st.closed) + if st.sawDigit then Dec(st.current) else ""
  }

  lemma {:induction false} StepText(st: Scanner, c: char)
    requires Sound(st) && Step(st, c).Some?
    ensures Text(Step(st, c).value) == Text(st) + [c]
  {
    var next := Step(st, c).value;
    if IsDigit(c) {
      if st.sawDigit {
        assert next.current / 10 == st.current && next.current % 10 == Digit(c);
        assert Dec(next.current) == Dec(st.current) + [c];
      } else {
        assert Dec(next.current) == [c];
      }
    } else {
      assert next.closed[..|next.closed| - 1] == st.closed;
      assert Text(next) == ClosedText(next.closed);
    }
  }

  lemma {:induction false} ScanText(st: Scanner, s: string)
    requires Sound(st) && Scan(st, s).Some?
    ensures Text(Scan(st, s).value) == Text(st) + s
    decreases |s|
  {
    if s == "" {
      assert Text(st) + s == Text(st);
    } else {
      var next := Step(st, s[0]).value;
      StepText(st, s[0]);
      ScanText(next, s[1..]);
      MoveFirst(Text(st), s);
    }
  }

  lemma {:induction false} MoveFirst(a: string, s: string)
    requires s != ""
    ensures a + s == a + [s[0]] + s[1..]
  {
  }

  lemma {:induction false} ScanMore(st: Scanner, s: string, c: char)
    requires Sound(st) && Scan(st, s).Some?
    ensures Scan(st, s + [c]) == Step(Scan(st, s).value, c)
    decreases |s|
  {
    if s == "" {
      assert s + [c] == [c];
    } else {
      ScanMore(Step(st, s[0]).value, s[1..], c);
      assert (s + [c])[1..] == s[1..] + [c];
    }
  }

  /** The scanner before the last character of its text. */
  function Before(st: Scanner): Scanner
    requires Sound(st) && st != START
  {
    if st.sawDigit then if st.current < 10 then Scanner(st.closed, 0, false) else Scanner(st.closed, st.current / 10, true)
    else Scanner(st.closed[..|st.closed| - 1], st.closed[|st.closed| - 1], true)
  }

  function Last(st: Scanner): char {
    if st.sawDigit then DigitChar(st.current % 10) else '.'
  }

  lemma {:induction false} StepBack(st: Scanner)
    requires Sound(st) && st != START
    ensures Sound(Before(st)) && Step(Before(st), Last(st)) == Some(st)
  {
    if !st.sawDigit {
      assert st.closed == st.closed[..|st.closed| - 1] + [st.closed[|st.closed| - 1]];
    }
  }

  lemma {:induction false} TextScans(st: Scanner)
    requires Sound(st)
    ensures Scan(START, Text(st)) == Some(st)
    decreases |st.closed|, if st.sawDigit then st.current + 1 else 0
  {
    if st != START {
      var b := Before(st);
      StepBack(st);
      TextScans(b);
      StepText(b, Last(st));
      ScanMore(START, Text(b), Last(st));
    }
  }

  lemma {:induction false} ByteAndNumber(n: nat, b: bv8)
    requires n < 256
    ensures Num(ByteOf(n)) == n && Num(b) < 256 && ByteOf(Num(b)) == b
  {
    NumberOfByte(n);
    ByteBound(b);
    NumberOfByte(Num(b));
    NumOrder(ByteOf(Num(b)), b);
  }

  lemma {:induction false} NumberOfByte(n: nat)
    requires n < 256
    ensures Num(ByteOf(n)) == n
  {
    if n != 0 {
      var high := ByteOf(n / 2);
      NumberOfByte(n / 2);
      assert high < 0x80 by {
        SmallPowers();
        MaskByteValue(1);
        NumOrder(high, MaskByte(1));
      }
      OneMoreBit(high);
      NumUnfold(ByteOf(n));
    }
  }

  lemma {:induction false} OneMoreBit(high: bv8)
    requires high < 0x80
    ensures ((high << 1) | 1) >> 1 == high && ((high << 1) | 1) & 1 == 1
    ensures ((high << 1) | 0) >> 1 == high && ((high << 1) | 0) & 1 == 0
  {
  }

  /** The scanner at the end of an address. */
  function End(b: Bytes): (st: Scanner)
    requires |b| == 4
    ensures Octets(st) == 4
  {
    Scanner([Num(b[0]), Num(b[1]), Num(b[2])], Num(b[3]), true)
  }

  /** inet_pton accepts exactly the texts inet_ntop prints. */
  lemma {:induction false} DottedExactly(s: string, b: Bytes)
    ensures Pton4(s) == Some(b) <==> |b| == 4 && s == Ntop4(b)
  {
    if Pton4(s) == Some(b) {
      Parsed(s, b);
    }
    if |b| == 4 && s == Ntop4(b) {
      Printed(b);
    }
  }

  lemma {:induction false} Printed(b: Bytes)
    requires |b| == 4
    ensures Pton4(Ntop4(b)) == Some(b)
  {
    ByteAndNumber(0, b[0]);
    ByteAndNumber(0, b[1]);
    ByteAndNumber(0, b[2]);
    ByteAndNumber(0, b[3]);
    TextScans(End(b));
    assert b == [b[0], b[1], b[2], b[3]];
  }

  lemma {:induction false} Parsed(s: string, b: Bytes)
    requires Pton4(s) == Some(b)
    ensures |b| == 4 && s == Ntop4(b)
  {
    var end := Scan(START, s).value;
    ScanText(START, s);
    ByteAndNumber(end.closed[0], b[0]);
    ByteAndNumber(end.closed[1], b[1]);
    ByteAndNumber(end.closed[2], b[2]);
    ByteAndNumber(end.current, b[3]);
    assert end.closed == [end.closed[0], end.closed[1], end.closed[2]];
    assert end == End(b);
    assert Text(START) + s == s;
  }

  // ----- text and number

  /** Digits are the usual ones, in both directions. */
  lemma {:induction false} UsualDigits(d: nat)
    requires d < 10
    ensures DigitChar(d) == "0123456789"[d] && Digit("0123456789"[d]) == d
  {
  }

  /** Four decimal numbers with dots between them are the address with those bytes, the first one highest. */
  lemma {:induction false} DottedValue(a: nat, b: nat, c: nat, d: nat)
    requires a < 256 && b < 256 && c < 256 && d < 256
    ensures var ip := Pton4(Dec(a) + "." + Dec(b) + "." + Dec(c) + "." + Dec(d));
      ip.Some? && |ip.value| == 4 && Value(ip.value) == 0x1000000 * a + 0x10000 * b + 0x100 * c + d
  {
    var bytes := [ByteOf(a), ByteOf(b), ByteOf(c), ByteOf(d)];
    NumberOfByte(a);
    NumberOfByte(b);
    NumberOfByte(c);
    NumberOfByte(d);
    FourClosed(a, b, c);
    DottedExactly(Ntop4(bytes), bytes);
    FourValue(bytes);
  }

  lemma {:induction false} FourClosed(a: nat, b: nat, c: nat)
    ensures ClosedText([a, b, c]) == Dec(a) + "." + Dec(b) + "." + Dec(c) + "."
  {
    assert [a, b, c][..2] == [a, b] && [a, b][..1] == [a] && [a][..0] == [];
    assert ClosedText([a]) == "" + Dec(a) + "." == Dec(a) + ".";
    assert ClosedText([a, b]) == ClosedText([a]) + Dec(b) + ".";
  }

  lemma {:induction false} FourValue(b: Bytes)
    requires |b| == 4
    ensures Value(b) == 0x1000000 * Num(b[0]) + 0x10000 * Num(b[1]) + 0x100 * Num(b[2]) + Num(b[3])
  {
    assert b[..3][..2] == b[..2] && b[..2][..1] == b[..1] && b[..1][..0] == [];
    assert Value(b[..1]) == Num(b[0]);
    assert Value(b[..2]) == 256 * Value(b[..1]) + Num(b[1]);
    assert Value(b[..3]) == 256 * Value(b[..2]) + Num(b[2]);
  }

  // ----- ranges

  /** What is asked of the system's two functions: they are inverse on addresses, and the text fits its
      buffer, has no NUL and no slash, and is not a plain number. */
  ghost predicate GoodText(c: Codec, b: Bytes) {
    var text := c.ntop(b);
    c.pton(text) == Some(b) && |text| < c.strSize && '\0' !in text && '/' !in text && !AllDigits(text)
  }

  ghost predicate Good(c: Codec) {
    (c.size == IPV4_SIZE || c.size == IPV6_SIZE) && forall b: Bytes :: |b| == c.size ==> GoodText(c, b)
  }

  lemma {:induction false} NoNul(s: string)
    requires '\0' !in s
    ensures UpToNul(s) == s
  {
    UpToNulIs(s, |s|);
    assert s[..|s|] == s;
  }

  lemma {:induction false} SlashAt(a: string, b: string)
    requires '/' !in a
    ensures FindSlash(a) == |a| && FindSlash(a + "/" + b) == |a|
  {
    if a != "" {
      assert a[0] != '/';
      SlashAt(a[1..], b);
      assert (a + "/" + b)[1..] == a[1..] + "/" + b;
    }
  }

  lemma {:induction false} PrintedAddress(c: Codec, b: Bytes)
    requires GoodText(c, b)
    ensures ParseAddress(c, c.ntop(b)) == Some(b)
  {
    NoNul(c.ntop(b));
  }

  lemma {:induction false} SplitAtSlash(c: Codec, a: string, m: string)
    requires '/' !in a
    ensures var ip := ParseAddress(c, a);
      ParseRange(c, a + "/" + m) == if ip.None? then None else ParseNetmask(c, ip.value, m)
  {
    var text := a + "/" + m;
    SlashAt(a, m);
    assert text[..|a|] == a && text[|a| + 1..] == m;
  }

  /** Printing a range and parsing it gives the same base and the same mask, prefix-shaped or not. */
  lemma {:induction false} RangeRoundTrip(c: Codec, r: IpRange)
    requires Good(c) && |r.ip| == |r.mask| == c.size
    ensures ParseRange(c, PrintRange(c, r)) == Some(r)
  {
    assert GoodText(c, r.ip) && GoodText(c, r.mask);
    PrintedAddress(c, r.ip);
    PrintedAddress(c, r.mask);
    SplitAtSlash(c, c.ntop(r.ip), c.ntop(r.mask));
  }

  /** `a/n` and `a/mask` mean the same, whatever a is and however n is spelled. */
  lemma {:induction false} LengthIsMask(c: Codec, a: string, n: nat, digits: string)
    requires Good(c) && '/' !in a && n <= 8 * c.size
    requires digits != "" && AllDigits(digits) && DecimalValue(digits) == n
    ensures ParseRange(c, a + "/" + digits) == ParseRange(c, a + "/" + c.ntop(MaskBytes(c.size, n)))
  {
    var mask := MaskBytes(c.size, n);
    assert GoodText(c, mask);
    PrintedAddress(c, mask);
    SplitAtSlash(c, a, digits);
    SplitAtSlash(c, a, c.ntop(mask));
  }

  /** A bare address is the range of that address alone. */
  lemma {:induction false} BareAddress(c: Codec, b: Bytes)
    requires Good(c) && |b| == c.size
    ensures ParseRange(c, c.ntop(b)) == ParseRange(c, c.ntop(b) + "/" + Dec(8 * c.size))
  {
    var text := c.ntop(b);
    assert GoodText(c, b);
    PrintedAddress(c, b);
    SlashAt(text, "");
    assert text[..|text|] == text;
    SplitAtSlash(c, text, Dec(8 * c.size));
    DecValue(8 * c.size);
  }

  // ----- IPv4 needs no assumption

  lemma {:induction false} ClosedChars(octets: seq<nat>)
    requires forall i :: 0 <= i < |octets| ==> octets[i] < 256
    ensures |ClosedText(octets)| <= 4 * |octets|
    ensures forall c :: c in ClosedText(octets) ==> IsDigit(c) || c == '.'
    ensures octets != [] ==> '.' in ClosedText(octets)
  {
    if octets != [] {
      var n := |octets| - 1;
      ClosedChars(octets[..n]);
      DecShort(octets[n]);
    }
  }

  lemma {:induction false} DottedChars(b: Bytes)
    requires |b| == 4
    ensures |Ntop4(b)| < 16 && !AllDigits(Ntop4(b))
    ensures forall c :: c in Ntop4(b) ==> IsDigit(c) || c == '.'
  {
    var closed := [Num(b[0]), Num(b[1]), Num(b[2])];
    ByteAndNumber(0, b[0]);
    ByteAndNumber(0, b[1]);
    ByteAndNumber(0, b[2]);
    ByteAndNumber(0, b[3]);
    ClosedChars(closed);
    DecShort(Num(b[3]));
    var i :| 0 <= i < |ClosedText(closed)| && ClosedText(closed)[i] == '.';
    assert Ntop4(b)[i] == '.';
  }

  lemma {:induction false} V4Good()
    ensures Good(V4)
  {
    forall b: Bytes | |b| == 4
      ensures GoodText(V4, b)
    {
      DottedExactly(Ntop4(b), b);
      DottedChars(b);
    }
  }

  /** A text is read as an IPv4 address exactly when it is short and, up to its first NUL, is what that
      address prints as. */
  lemma {:induction false} V4Exactly(text: string, b: Bytes)
    ensures ParseAddress(V4, text) == Some(b) <==> |text| < 16 && |b| == 4 && UpToNul(text) == Ntop4(b)
  {
    DottedExactly(UpToNul(text), b);
  }

  lemma {:induction false} V4RoundTrip(r: IpRange)
    requires |r.ip| == |r.mask| == IPV4_SIZE
    ensures ParseRange(V4, PrintRange(V4, r)) == Some(r)
  {
    V4Good();
    RangeRoundTrip(V4, r);
  }

  // ----- exactly which texts are IPv4 ranges

  ghost predicate SpellsAddress(text: string, b: Bytes) {
    |text| < 16 && |b| == IPV4_SIZE && UpToNul(text) == Ntop4(b)
  }

  ghost predicate SpellsMask(text: string, mask: Bytes) {
    || (text != "" && AllDigits(text) && DecimalValue(text) <= 32 && mask == MaskBytes(IPV4_SIZE, DecimalValue(text)))
    || SpellsAddress(text, mask)
  }

  ghost predicate SpellsRange(a: string, m: string, text: string, r: IpRange) {
    '/' !in a && text == a + "/" + m && SpellsAddress(a, r.ip) && SpellsMask(m, r.mask)
  }

  lemma {:induction false} UpToNulChars(s: string)
    ensures forall c :: c in UpToNul(s) ==> c in s
  {
    if s != "" && s[0] != '\0' {
      UpToNulChars(s[1..]);
    }
  }

  /** A dotted address is not a number, so the two spellings of a mask never overlap. */
  lemma {:induction false} AddressIsNoNumber(text: string, b: Bytes)
    requires SpellsAddress(text, b)
    ensures text != "" && !AllDigits(text)
  {
    DottedChars(b);
    UpToNulChars(text);
    var i :| 0 <= i < |Ntop4(b)| && !IsDigit(Ntop4(b)[i]);
    assert Ntop4(b)[i] in text;
  }

  lemma {:induction false} NetmaskExactly(ip: Bytes, text: string, r: IpRange)
    ensures ParseNetmask(V4, ip, text) == Some(r) <==> r.ip == ip && SpellsMask(text, r.mask)
  {
    V4Exactly(text, r.mask);
    if SpellsAddress(text, r.mask) {
      AddressIsNoNumber(text, r.mask);
    }
  }

  lemma {:induction false} FirstSlash(s: string)
    ensures '/' !in s[..FindSlash(s)] && (FindSlash(s) < |s| ==> s[FindSlash(s)] == '/')
  {
    if s != "" && s[0] != '/' {
      FirstSlash(s[1..]);
      var n := FindSlash(s[1..]);
      assert s[..n + 1] == [s[0]] + s[1..][..n];
    }
  }

  /** A text is a range exactly when it is an address alone, which means that one address, or an address, a
      slash and either spelling of a mask. */
  lemma {:induction false} V4RangeExactly(text: string, r: IpRange)
    ensures ParseRange(V4, text) == Some(r) <==>
      || ('/' !in text && SpellsAddress(text, r.ip) && r.mask == MaskBytes(IPV4_SIZE, 32))
      || exists a, m :: SpellsRange(a, m, text, r)
  {
    forall a: string, m: string | SpellsRange(a, m, text, r)
      ensures '/' in text
    {
      assert text[|a|] == '/';
    }
    var pos := FindSlash(text);
    FirstSlash(text);
    if pos == |text| {
      assert text[..pos] == text;
      V4Exactly(text, r.ip);
    } else {
      var a, m := text[..pos], text[pos + 1..];
      assert text == a + "/" + m && '/' in text;
      WithSlash(a, m, text, r);
      if a', m' :| SpellsRange(a', m', text, r) {
        SlashAt(a', m');
        assert a' == text[..|a'|] && m' == text[|a'| + 1..];
      }
    }
  }

  lemma {:induction false} WithSlash(a: string, m: string, text: string, r: IpRange)
    requires '/' !in a && text == a + "/" + m
    ensures ParseRange(V4, text) == Some(r) <==> SpellsRange(a, m, text, r)
  {
    SplitAtSlash(V4, a, m);
    V4Exactly(a, r.ip);
    var ip := ParseAddress(V4, a);
    if ip.Some? {
      NetmaskExactly(ip.value, m, r);
    }
  }

  // ----- addresses of either family

  function ParseEither(v6: Codec, text: string): Option<Bytes> {
    var ip := ParseAddress(V4, text);
    if ip.Some? then ip else ParseAddress(v6, text)
  }

  function PrintEither(v6: Codec, b: Bytes): string {
    if |b| == IPV4_SIZE then Ntop4(b) else v6.ntop(b)
  }

  /** An IPv6 text has a colon, so it is never taken for an IPv4 address. */
  lemma {:induction false} EitherRoundTrip(v6: Codec, b: Bytes)
    requires Good(v6) && v6.size == IPV6_SIZE && (|b| == IPV4_SIZE || |b| == IPV6_SIZE)
    requires forall x: Bytes :: |x| == IPV6_SIZE ==> ':' in v6.ntop(x)
    ensures ParseEither(v6, PrintEither(v6, b)) == Some(b)
  {
    var text := PrintEither(v6, b);
    if |b| == IPV4_SIZE {
      V4Good();
      assert GoodText(V4, b);
      PrintedAddress(V4, b);
    } else {
      assert GoodText(v6, b);
      PrintedAddress(v6, b);
      NoNul(text);
      var ip := ParseAddress(V4, text);
      if ip.Some? {
        V4Exactly(text, ip.value);
        DottedChars(ip.value);
        assert false;
      }
    }
  }
}
