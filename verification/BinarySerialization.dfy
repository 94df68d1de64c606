/** Lengths, fixed-size integers, strings and arrays on a byte stream. Lengths are in the definite form of
    section 8.1.3 of ITU-T X.690. */
module BinarySerialization {
  import opened Common

  type Byte = b: int | 0 <= b < 256
  type UInt32 = n: int | 0 <= n < 0x1_0000_0000

  const UINT32_SPAN: int := 0x1_0000_0000

  /** A value read and the bytes after it. */
  datatype Read<+T> = Read(value: T, rest: seq<Byte>)

  // ----- numbers as bytes ----------------------------------------------------------------

  /** The number that the bytes are in base 256, the most significant first. */
  function Value(bytes: seq<Byte>): (n: nat) {
    if bytes == [] then 0 else Value(bytes[..|bytes| - 1]) * 256 + bytes[|bytes| - 1]
  }

  /** The shortest bytes for a number: none for zero, and no zero in front. */
  function Shortest(n: nat): (bytes: seq<Byte>)
    ensures Value(bytes) == n
    ensures bytes != [] ==> bytes[0] != 0
  {
    if n == 0 then [] else Shortest(n / 256) + [n % 256]
  }

  function Power(k: nat): (p: nat)
    ensures p >= 1
  {
    if k == 0 then 1 else 256 * Power(k - 1)
  }

  lemma {:induction false} ValueBound(bytes: seq<Byte>)
    ensures Value(bytes) < Power(|bytes|)
  {
    if bytes != [] {
      ValueBound(bytes[..|bytes| - 1]);
    }
  }

  lemma {:induction false} ValueAtLeast(bytes: seq<Byte>)
    requires bytes != [] && bytes[0] != 0
    ensures Value(bytes) >= Power(|bytes| - 1)
  {
    var k := |bytes| - 1;
    if k == 0 {
      assert bytes[..0] == [];
    } else {
      ValueAtLeast(bytes[..k]);
    }
  }

  lemma {:induction false} PowerGrows(j: nat, k: nat)
    requires j <= k
    ensures Power(j) <= Power(k)
  {
    if j < k {
      PowerGrows(j, k - 1);
    }
  }

  /** No bytes for the number are fewer. */
  lemma ShortestIsShortest(bytes: seq<Byte>)
    ensures |Shortest(Value(bytes))| <= |bytes|
  {
    var s := Shortest(Value(bytes));
    if s != [] {
      ValueAtLeast(s);
      ValueBound(bytes);
      if |bytes| <= |s| - 1 {
        PowerGrows(|bytes|, |s| - 1);
      }
    }
  }

  /** Bytes of one length are determined by the number. */
  lemma {:induction false} ValueIsUnique(a: seq<Byte>, b: seq<Byte>)
    requires |a| == |b| && Value(a) == Value(b)
    ensures a == b
  {
    var k := |a| - 1;
    if k >= 0 {
      assert a[k] == b[k] && Value(a[..k]) == Value(b[..k]);
      ValueIsUnique(a[..k], b[..k]);
      assert a == a[..k] + [a[k]] && b == b[..k] + [b[k]];
    }
  }

  // ----- lengths -------------------------------------------------------------------------

  function LenBytes(len: UInt32): seq<Byte> {
    if len < 128 then [len]
    else
      ShortestFits(len);
      [128 + |Shortest(len)|] + Shortest(len)
  }

  lemma ShortestFits(len: UInt32)
    ensures |Shortest(len)| == if len == 0 then 0 else if len < 0x100 then 1 else if len < 0x1_0000 then 2
                               else if len < 0x100_0000 then 3 else 4
  {
    var s := Shortest(len);
    assert Power(1) == 256 && Power(2) == 0x1_0000 && Power(3) == 0x100_0000 && Power(4) == UINT32_SPAN;
    ValueBound(s);
    if s != [] {
      ValueAtLeast(s);
      if |s| > 4 {
        PowerGrows(4, |s| - 1);
      }
    }
  }

  /** readLen; None where it throws. The indefinite form 0x80 is read as zero. */
  function ParseLen(bytes: seq<Byte>): (r: Option<Read<UInt32>>)
    ensures r.Some? ==> |r.value.rest| < |bytes| && r.value.rest == bytes[|bytes| - |r.value.rest|..]
  {
    if bytes == [] then None
    else if bytes[0] < 128 then Some(Read(bytes[0], bytes[1..]))
    else
      var noctets := bytes[0] - 128;
      if noctets > 4 || |bytes| < 1 + noctets then None
      else
        OctetsFit(bytes[1..1 + noctets]);
        Some(Read(Value(bytes[1..1 + noctets]), bytes[1 + noctets..]))
  }

  lemma OctetsFit(octets: seq<Byte>)
    requires |octets| <= 4
    ensures Value(octets) < UINT32_SPAN
  {
    ValueBound(octets);
    PowerGrows(|octets|, 4);
    assert Power(4) == UINT32_SPAN by {
      assert Power(2) == 0x1_0000;
    }
  }

  /** Every length comes back, and what follows it is left. */
  lemma LenRoundTrip(len: UInt32, rest: seq<Byte>)
    ensures ParseLen(LenBytes(len) + rest) == Some(Read(len, rest))
  {
    var bytes := LenBytes(len) + rest;
    if len >= 128 {
      ShortestFits(len);
      assert bytes[1..1 + |Shortest(len)|] == Shortest(len);
    }
    assert bytes[|LenBytes(len)|..] == rest;
  }

  /** Whatever is read as this length is at least as long as what is written for it, and where it is as
      long it is the same, but for the indefinite form. */
  lemma LenIsShortest(bytes: seq<Byte>)
    requires ParseLen(bytes).Some?
    ensures var Read(len, rest) := ParseLen(bytes).value;
            var used := |bytes| - |rest|;
            && |LenBytes(len)| <= used
            && (|LenBytes(len)| == used ==> bytes[..used] == LenBytes(len) || bytes[0] == 0x80)
  {
    var Read(len, rest) := ParseLen(bytes).value;
    if bytes[0] >= 128 {
      var octets := bytes[1..bytes[0] - 127];
      assert len == Value(octets) && |bytes| - |rest| == 1 + |octets|;
      ShortestIsShortest(octets);
      if |Shortest(len)| == |octets| {
        ValueIsUnique(Shortest(len), octets);
      }
      assert bytes[..1 + |octets|] == [bytes[0]] + octets;
    }
  }

  // ----- fixed-size integers -------------------------------------------------------------

  /** hton: so many bytes. */
  function Fixed(size: nat, n: nat): (bytes: seq<Byte>)
    requires n < Power(size)
    ensures |bytes| == size && Value(bytes) == n
  {
    if size == 0 then [] else Fixed(size - 1, n / 256) + [n % 256]
  }

  function ParseFixed(size: nat, bytes: seq<Byte>): Option<Read<nat>> {
    if |bytes| < size then None else Some(Read(Value(bytes[..size]), bytes[size..]))
  }

  lemma FixedRoundTrip(size: nat, n: nat, rest: seq<Byte>)
    requires n < Power(size)
    ensures ParseFixed(size, Fixed(size, n) + rest) == Some(Read(n, rest))
  {
    var bytes := Fixed(size, n) + rest;
    assert bytes[..size] == Fixed(size, n) && bytes[size..] == rest;
  }

  /** The signed overloads write two's complement. */
  function SignedFixed(size: nat, n: int): (bytes: seq<Byte>)
    ensures |bytes| == size
  {
    Fixed(size, n % Power(size))
  }

  function ParseSigned(size: nat, bytes: seq<Byte>): Option<Read<int>> {
    match ParseFixed(size, bytes)
    case None => None
    case Some(Read(n, rest)) => Some(Read(if 2 * n < Power(size) then n else n - Power(size), rest))
  }

  /** A signed number of the size comes back, and only such a number does. */
  lemma SignedFixedRoundTrip(size: nat, n: int, rest: seq<Byte>)
    ensures ParseSigned(size, SignedFixed(size, n) + rest) == Some(Read(n, rest)) <==>
            0 <= 2 * n + Power(size) && 2 * n < Power(size)
  {
    FixedRoundTrip(size, n % Power(size), rest);
    ModuloOnce(n, Power(size));
  }

  lemma ModuloOnce(n: int, p: int)
    requires p > 0
    ensures -p <= n < 0 ==> n % p == n + p
    ensures 0 <= n < p ==> n % p == n
  {
    if -p <= n < 0 {
      assert n == (n + p) + p * -1;
      if n > -p {
        assert (n + p) / p == 0;
      }
    }
  }

  // ----- the stream ----------------------------------------------------------------------

  /** A stream buffer: what was written and not read yet. */
  class StreamBuf {
    var bytes: seq<Byte>

    constructor ()
      ensures bytes == []
    {
      bytes := [];
    }

    /** write */
    method Write(dataOut: seq<Byte>)
      modifies this
      ensures bytes == old(bytes) + dataOut
    {
      bytes := bytes + dataOut;
    }

    /** read, which throws if there are too few bytes; it has taken them all the same. */
    method Read(dataInLen: nat) returns (data: Option<seq<Byte>>)
      modifies this
      ensures data.Some? <==> dataInLen <= |old(bytes)|
      ensures data.Some? ==> data.value == old(bytes)[..dataInLen] && bytes == old(bytes)[dataInLen..]
      ensures data.None? ==> bytes == []
    {
      if |bytes| < dataInLen {
        bytes := [];
        return None;
      }
      data := Some(bytes[..dataInLen]);
      bytes := bytes[dataInLen..];
    }
  }

  lemma LastOctet(octets: seq<Byte>, k: nat)
    requires 0 < k <= |octets|
    ensures Value(octets[..k]) % 256 == octets[k - 1] && Value(octets[..k]) / 256 == Value(octets[..k - 1])
  {
    assert octets[..k][..k - 1] == octets[..k - 1];
  }

  /** The loop of writeLen: the last lenlen octets of the buffer, from its end. */
  method FillOctets(len: UInt32, lenlen: nat, ghost octets: seq<Byte>) returns (netlen: array<Byte>)
    requires lenlen == |octets| <= 4 && Value(octets) == len
    ensures fresh(netlen) && netlen.Length == 4 && netlen[4 - lenlen..] == octets
  {
    netlen := new Byte[4](_ => 0);
    var left: nat := len;
    var j := 0;
    assert octets[..lenlen] == octets;
    while j < lenlen
      invariant 0 <= j <= lenlen
      invariant left == Value(octets[..lenlen - j])
      invariant forall k :: lenlen - j <= k < lenlen ==> netlen[4 - lenlen + k] == octets[k]
    {
      LastOctet(octets, lenlen - j);
      netlen[3 - j] := left % 256;
      left := left / 256;
      j := j + 1;
    }
  }

  method WriteLen(ostrm: StreamBuf, len: UInt32)
    modifies ostrm
    ensures ostrm.bytes == old(ostrm.bytes) + LenBytes(len)
  {
    if len < 128 {
      ostrm.Write([len]);
      return;
    }
    var lenlen := if len < 0x100 then 1 else if len < 0x1_0000 then 2 else if len < 0x100_0000 then 3 else 4;
    ShortestFits(len);
    ostrm.Write([lenlen + 128]);
    var netlen := FillOctets(len, lenlen, Shortest(len));
    ostrm.Write(netlen[4 - lenlen..]);
  }

  method ReadLen(istrm: StreamBuf) returns (len: Option<UInt32>)
    modifies istrm
    ensures match ParseLen(old(istrm.bytes))
            case Some(Read(n, rest)) => len == Some(n) && istrm.bytes == rest
            case None => len == None
  {
    var lc := istrm.Read(1);
    if lc.None? {
      return None;
    }
    if lc.value[0] < 128 {
      return Some(lc.value[0]);
    }
    var noctets := lc.value[0] - 128;
    if noctets > 4 {
      return None;
    }
    var data := istrm.Read(noctets);
    if data.None? {
      return None;
    }
    var netlen := data.value;
    assert netlen == old(istrm.bytes)[1..1 + noctets];
    assert istrm.bytes == old(istrm.bytes)[1 + noctets..];
    var n: nat := 0;
    var i := 0;
    while i < noctets
      invariant 0 <= i <= noctets
      invariant n == Value(netlen[..i]) && n < UINT32_SPAN
      invariant istrm.bytes == old(istrm.bytes)[1 + noctets..]
    {
      assert netlen[..i + 1][..i] == netlen[..i];
      OctetsFit(netlen[..i + 1]);
      // Nothing is shifted out.
      n := n * 256 % UINT32_SPAN + netlen[i];
      i := i + 1;
    }
    assert netlen[..i] == netlen;
    return Some(n);
  }

  // ----- objects and arrays --------------------------------------------------------------

  /** How the objects of a type write and read themselves. */
  datatype Codec<!T> = Codec(write: T -> seq<Byte>, read: seq<Byte> -> Option<Read<T>>)

  /** An object is read back whatever follows it, which is left. */
  ghost predicate RoundTrips<T(!new)>(c: Codec<T>) {
    forall x, rest :: c.read(c.write(x) + rest) == Some(Read(x, rest))
  }

  function Elements<T>(c: Codec<T>, a: seq<T>): seq<Byte> {
    if a == [] then [] else c.write(a[0]) + Elements(c, a[1..])
  }

  /** writeArray counts the elements in 32 bits. */
  function ArrayBytes<T>(c: Codec<T>, a: seq<T>): seq<Byte> {
    var len := |a| % UINT32_SPAN;
    LenBytes(len) + Elements(c, a[..len])
  }

  function ParseElements<T>(c: Codec<T>, n: nat, bytes: seq<Byte>): Option<Read<seq<T>>> {
    if n == 0 then Some(Read([], bytes))
    else
      match c.read(bytes)
      case None => None
      case Some(first) => Prepend([first.value], ParseElements(c, n - 1, first.rest))
  }

  function Prepend<T>(done: seq<T>, r: Option<Read<seq<T>>>): Option<Read<seq<T>>> {
    match r
    case None => None
    case Some(Read(others, rest)) => Some(Read(done + others, rest))
  }

  lemma PrependTwice<T>(a: seq<T>, b: seq<T>, r: Option<Read<seq<T>>>)
    ensures Prepend(a, Prepend(b, r)) == Prepend(a + b, r)
    ensures Prepend([], r) == r
  {
    if r.Some? {
      assert a + (b + r.value.value) == (a + b) + r.value.value;
      assert [] + r.value.value == r.value.value;
    }
  }

  function ParseArray<T>(c: Codec<T>, bytes: seq<Byte>): Option<Read<seq<T>>> {
    match ParseLen(bytes)
    case None => None
    case Some(len) => ParseElements(c, len.value, len.rest)
  }

  lemma {:induction false} ElementsRoundTrip<T(!new)>(c: Codec<T>, a: seq<T>, rest: seq<Byte>)
    requires RoundTrips(c)
    ensures ParseElements(c, |a|, Elements(c, a) + rest) == Some(Read(a, rest))
  {
    if a != [] {
      var others := Elements(c, a[1..]) + rest;
      ElementsRoundTrip(c, a[1..], rest);
      assert Elements(c, a) + rest == c.write(a[0]) + others;
      assert [a[0]] + a[1..] == a;
    } else {
      assert Elements(c, a) + rest == rest;
    }
  }

  /** An array is read back, and what follows it is left, if its elements are and there are fewer than 2^32;
      of a longer one only as many as the truncated count says. */
  lemma ArrayRoundTrip<T(!new)>(c: Codec<T>, a: seq<T>, rest: seq<Byte>)
    requires RoundTrips(c)
    ensures ParseArray(c, ArrayBytes(c, a) + rest) == Some(Read(a[..|a| % UINT32_SPAN], rest))
    ensures ParseArray(c, ArrayBytes(c, a) + rest) == Some(Read(a, rest)) <==> |a| < UINT32_SPAN
  {
    var len := |a| % UINT32_SPAN;
    var elements := Elements(c, a[..len]);
    LenRoundTrip(len, elements + rest);
    assert ArrayBytes(c, a) + rest == LenBytes(len) + (elements + rest);
    ElementsRoundTrip(c, a[..len], rest);
    assert |a| < UINT32_SPAN ==> a[..len] == a;
  }

  lemma {:induction false} ElementsOfMore<T>(c: Codec<T>, a: seq<T>, x: T)
    ensures Elements(c, a + [x]) == Elements(c, a) + c.write(x)
  {
    if a == [] {
      assert a + [x] == [x];
    } else {
      ElementsOfMore(c, a[1..], x);
      assert (a + [x])[1..] == a[1..] + [x];
    }
  }

  method WriteArray<T>(c: Codec<T>, ostrm: StreamBuf, a: seq<T>)
    modifies ostrm
    ensures ostrm.bytes == old(ostrm.bytes) + ArrayBytes(c, a)
  {
    var len := |a| % UINT32_SPAN;
    WriteLen(ostrm, len);
    var i := 0;
    while i < len
      invariant 0 <= i <= len
      invariant ostrm.bytes == old(ostrm.bytes) + LenBytes(len) + Elements(c, a[..i])
    {
      ElementsOfMore(c, a[..i], a[i]);
      assert a[..i] + [a[i]] == a[..i + 1];
      ostrm.Write(c.write(a[i]));
      i := i + 1;
    }
  }

  method ReadArray<T>(c: Codec<T>, istr: StreamBuf) returns (a: Option<seq<T>>)
    modifies istr
    ensures match ParseArray(c, old(istr.bytes))
            case Some(Read(elements, rest)) => a == Some(elements) && istr.bytes == rest
            case None => a == None
  {
    var len := ReadLen(istr);
    if len.None? {
      return None;
    }
    ghost var start := istr.bytes;
    var done: seq<T> := [];
    var i := 0;
    PrependTwice([], [], ParseElements(c, len.value, start));
    while i < len.value
      invariant 0 <= i <= len.value
      invariant Prepend(done, ParseElements(c, len.value - i, istr.bytes)) == ParseElements(c, len.value, start)
    {
      var x := c.read(istr.bytes);
      if x.None? {
        return None;
      }
      PrependTwice(done, [x.value.value], ParseElements(c, len.value - i - 1, x.value.rest));
      istr.bytes := x.value.rest;
      done := done + [x.value.value];
      i := i + 1;
    }
    assert done + [] == done;
    return Some(done);
  }

  // ----- the element types ---------------------------------------------------------------

  /** Any byte but zero is read as true. */
  function BoolCodec(): Codec<bool> {
    Codec(
      b => [if b then 1 else 0],
      bytes => if bytes == [] then None else Some(Read(bytes[0] != 0, bytes[1..])))
  }

  type UInt16 = n: int | 0 <= n < 0x1_0000

  function Char16Codec(): Codec<UInt16> {
    Codec((n: UInt16) => WriteChar16(n), ReadChar16)
  }

  function WriteChar16(n: UInt16): seq<Byte> {
    assert Power(2) == 0x1_0000;
    Fixed(2, n)
  }

  function ReadChar16(bytes: seq<Byte>): Option<Read<UInt16>> {
    match ParseFixed(2, bytes)
    case None => None
    case Some(Read(n, rest)) =>
      ValueBound(bytes[..2]);
      assert Power(2) == 0x1_0000;
      Some(Read(n, rest))
  }

  /** A string short enough for its length. */
  type ShortString = s: seq<Byte> | |s| < UINT32_SPAN witness []

  function StringCodec(): Codec<ShortString> {
    Codec((s: ShortString) => LenBytes(|s|) + s, ReadString)
  }

  function ReadString(bytes: seq<Byte>): Option<Read<ShortString>> {
    match ParseLen(bytes)
    case None => None
    case Some(Read(len, rest)) => if |rest| < len then None else Some(Read(rest[..len], rest[len..]))
  }

  /** An object behind the byte that is its signature. */
  function Signed<T>(sig: Byte, c: Codec<T>): Codec<T> {
    Codec(
      x => [sig] + c.write(x),
      bytes => if bytes == [] || bytes[0] != sig then None else c.read(bytes[1..]))
  }

  lemma BoolsRoundTrip()
    ensures RoundTrips(BoolCodec())
  {
    var c := BoolCodec();
    forall b: bool, rest: seq<Byte> ensures c.read(c.write(b) + rest) == Some(Read(b, rest)) {
      assert (c.write(b) + rest)[1..] == rest;
    }
  }

  lemma Char16sRoundTrip()
    ensures RoundTrips(Char16Codec())
  {
    var c := Char16Codec();
    forall n: UInt16, rest: seq<Byte> ensures c.read(c.write(n) + rest) == Some(Read(n, rest)) {
      assert Power(2) == 0x1_0000;
      FixedRoundTrip(2, n, rest);
    }
  }

  lemma StringsRoundTrip()
    ensures RoundTrips(StringCodec())
  {
    var c := StringCodec();
    forall s: ShortString, rest: seq<Byte> ensures c.read(c.write(s) + rest) == Some(Read(s, rest)) {
      StringRoundTrip(s, rest);
    }
  }

  lemma StringRoundTrip(s: ShortString, rest: seq<Byte>)
    ensures ReadString(LenBytes(|s|) + s + rest) == Some(Read(s, rest))
  {
    LenRoundTrip(|s|, s + rest);
    assert LenBytes(|s|) + s + rest == LenBytes(|s|) + (s + rest);
    assert (s + rest)[..|s|] == s && (s + rest)[|s|..] == rest;
  }

  lemma SignedRoundTrips<T(!new)>(sig: Byte, c: Codec<T>)
    requires RoundTrips(c)
    ensures RoundTrips(Signed(sig, c))
  {
    var d := Signed(sig, c);
    forall x: T, rest: seq<Byte> ensures d.read(d.write(x) + rest) == Some(Read(x, rest)) {
      assert (d.write(x) + rest)[1..] == c.write(x) + rest;
    }
  }

  /** An array behind a signature, which verifySignature checks. */
  function SignedArrayBytes<T>(sig: Byte, c: Codec<T>, a: seq<T>): seq<Byte> {
    [sig] + ArrayBytes(c, a)
  }

  function ParseSignedArray<T>(sig: Byte, c: Codec<T>, bytes: seq<Byte>): Option<Read<seq<T>>> {
    if bytes == [] || bytes[0] != sig then None else ParseArray(c, bytes[1..])
  }

  lemma SignedArrayRoundTrip<T(!new)>(sig: Byte, c: Codec<T>, a: seq<T>, rest: seq<Byte>)
    requires RoundTrips(c) && |a| < UINT32_SPAN
    ensures ParseSignedArray(sig, c, SignedArrayBytes(sig, c, a) + rest) == Some(Read(a, rest))
  {
    ArrayRoundTrip(c, a, rest);
    var bytes := ArrayBytes(c, a);
    assert ([sig] + bytes + rest)[1..] == bytes + rest;
  }

  const BINSIG_STRARRAY: Byte := 107

  /** writeStringArray and readStringArray. */
  lemma StringArrayRoundTrip(a: seq<ShortString>, rest: seq<Byte>)
    requires |a| < UINT32_SPAN
    ensures var bytes := SignedArrayBytes(BINSIG_STRARRAY, StringCodec(), a) + rest;
            ParseSignedArray(BINSIG_STRARRAY, StringCodec(), bytes) == Some(Read(a, rest))
  {
    StringsRoundTrip();
    SignedArrayRoundTrip(BINSIG_STRARRAY, StringCodec(), a, rest);
  }

  /** The bytes on the wire, by example. */
  lemma WireFormat(bytes: seq<Byte>)
    ensures BoolCodec().write(false) == [0] && BoolCodec().write(true) == [1]
    ensures bytes != [] ==> BoolCodec().read(bytes) == Some(Read(bytes[0] != 0, bytes[1..]))
    ensures Char16Codec().write(0x1234) == [0x12, 0x34]
  {
    assert Power(2) == 0x1_0000;
    assert Fixed(1, 0x12) == [0x12];
  }

  /** The form of a length: itself if it is short, or else 128 and the number of the bytes that follow, which are
      the length with the most significant byte first and none to spare. */
  lemma LengthForm(len: UInt32)
    ensures var bytes := LenBytes(len);
            if len < 128 then bytes == [len]
            else
              && bytes[0] == 128 + (|bytes| - 1) && 2 <= |bytes| <= 5 && bytes[1] != 0
              && Value(bytes[1..]) == len
    ensures Value([0x12, 0x34]) == 0x1234
  {
    ShortestFits(len);
    assert len >= 128 ==> LenBytes(len)[1..] == Shortest(len);
    assert [0x12, 0x34][..1] == [0x12] && [0x12][..0] == [];
  }

  lemma StringsByExample()
    ensures StringCodec().write([104, 105]) == [2, 104, 105]
  {
  }

  /** An object behind another signature is refused, and so is anything that its codec refuses. */
  lemma SignatureIsChecked<T>(sig: Byte, c: Codec<T>, first: Byte, bytes: seq<Byte>)
    ensures Signed(sig, c).read([]) == None && ParseSignedArray(sig, c, []) == None
    ensures Signed(sig, c).read([first] + bytes) == if first == sig then c.read(bytes) else None
    ensures ParseSignedArray(sig, c, [first] + bytes) == if first == sig then ParseArray(c, bytes) else None
  {
    assert ([first] + bytes)[1..] == bytes;
  }
}
