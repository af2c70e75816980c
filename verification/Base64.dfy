/** Base64 as the web server encodes and decodes it (section 4 of RFC 4648). */
module Base64 {
  import opened Bytes

  /** A six-bit value. */
  type sextet = x: int | 0 <= x < 64

  /** The alphabet: A to Z, a to z, 0 to 9, + and /. */
  function Char(x: sextet): char {
    if x < 26 then (x + 'A' as int) as char
    else if x < 52 then (x - 26 + 'a' as int) as char
    else if x < 62 then (x - 52 + '0' as int) as char
    else if x == 62 then '+' else '/'
  }

  predicate IsBase64(c: char) {
    'A' <= c <= 'Z' || 'a' <= c <= 'z' || '0' <= c <= '9' || c == '+' || c == '/'
  }

  /** The position of a character in the alphabet. */
  function Value(c: char): sextet
    requires IsBase64(c)
  {
    if 'A' <= c <= 'Z' then c as int - 'A' as int
    else if 'a' <= c <= 'z' then c as int - 'a' as int + 26
    else if '0' <= c <= '9' then c as int - '0' as int + 52
    else if c == '+' then 62 else 63
  }

  lemma CharsAndValues(x: sextet)
    ensures IsBase64(Char(x)) && Value(Char(x)) == x
  {
  }

  /** The alphabet of Table 1 of RFC 4648: each run begins as shown and goes on letter by letter. */
  lemma Alphabet(x: sextet)
    ensures Char(0) == 'A' && Char(26) == 'a' && Char(52) == '0' && Char(62) == '+' && Char(63) == '/'
    ensures x != 25 && x != 51 && x < 61 ==> Char(x + 1) as int == Char(x) as int + 1
  {
  }

  const PAD := '='

  // ---- Encoding ----------------------------------------------------------------------------------

  /** The four sextets of three bytes, by the code's masks and shifts. */
  function Sextets(a: byte, b: byte, c: byte): (s: seq<sextet>)
    ensures |s| == 4
  {
    [a / 4, a % 4 * 16 + b / 16, b % 16 * 4 + c / 64, c % 64]
  }

  function Chars(s: seq<sextet>): (r: string)
    ensures |r| == |s|
    ensures forall i | 0 <= i < |s| :: r[i] == Char(s[i])
  {
    seq(|s|, i requires 0 <= i < |s| => Char(s[i]))
  }

  /** The text for `bytes`. */
  function Encoded(bytes: seq<byte>): string {
    if bytes == [] then ""
    else if |bytes| == 1 then Chars(Sextets(bytes[0], 0, 0)[..2]) + [PAD, PAD]
    else if |bytes| == 2 then Chars(Sextets(bytes[0], bytes[1], 0)[..3]) + [PAD]
    else Chars(Sextets(bytes[0], bytes[1], bytes[2])) + Encoded(bytes[3..])
  }

  /** Fill the four-place array from the three-place one. */
  method Split(three: array<byte>, four: array<byte>)
    requires three.Length == 3 && four.Length == 4 && three != four
    modifies four
    ensures four[..] == Sextets(three[0], three[1], three[2])
  {
    four[0] := three[0] / 4;
    four[1] := three[0] % 4 * 16 + three[1] / 16;
    four[2] := three[1] % 16 * 4 + three[2] / 64;
    four[3] := three[2] % 64;
  }

  /** Append the characters of the first `n` places. */
  method Emit(ret: string, four: array<byte>, n: nat) returns (r: string)
    requires n <= four.Length && forall k | 0 <= k < n :: four[k] < 64
    ensures r == ret + Chars(four[..n])
  {
    r := ret;
    for j := 0 to n
      invariant r == ret + Chars(four[..j])
    {
      r := r + [Char(four[j])];
    }
  }

  lemma EncodedBlock(a: byte, b: byte, c: byte, rest: seq<byte>)
    ensures Encoded([a, b, c] + rest) == Chars(Sextets(a, b, c)) + Encoded(rest)
  {
    assert ([a, b, c] + rest)[3..] == rest;
  }

  /** The last one or two bytes, filled up with zeros and padded. */
  method EncodeRest(ret: string, three: array<byte>, four: array<byte>, n: nat) returns (r: string)
    requires three.Length == 3 && four.Length == 4 && three != four && 1 <= n <= 2
    modifies three, four
    ensures r == ret + Encoded(old(three[..n]))
  {
    ghost var rest := three[..n];
    for j := n to 3
      invariant three[..n] == rest
      invariant forall k | n <= k < j :: three[k] == 0
    {
      three[j] := 0;
    }
    assert rest == if n == 1 then [three[0]] else [three[0], three[1]];
    Split(three, four);
    assert four[..n + 1] == four[..][..n + 1];
    r := Emit(ret, four, n + 1);
    var i := n;
    while i < 3
      invariant n <= i <= 3
      invariant r + seq(3 - i, _ => PAD) == ret + Encoded(rest)
    {
      r := r + [PAD];
      i := i + 1;
    }
  }

  /** The text still to come when the bytes `taken` wait and `bytes` is read up to `at`. */
  function TextToCome(taken: seq<byte>, bytes: seq<byte>, at: nat): string
    requires at <= |bytes|
  {
    Encoded(taken + bytes[at..])
  }

  lemma NextByte(taken: seq<byte>, bytes: seq<byte>, at: nat)
    requires at < |bytes|
    ensures TextToCome(taken, bytes, at) == TextToCome(taken + [bytes[at]], bytes, at + 1)
  {
    assert taken + bytes[at..] == (taken + [bytes[at]]) + bytes[at + 1..];
  }

  lemma BytesEnd(taken: seq<byte>, bytes: seq<byte>)
    ensures TextToCome(taken, bytes, |bytes|) == Encoded(taken)
    ensures TextToCome([], bytes, 0) == Encoded(bytes)
  {
    assert taken + bytes[|bytes|..] == taken && [] + bytes[0..] == bytes;
  }

  /** Three bytes become four characters. */
  method EncodeBlock(ret: string, three: array<byte>, four: array<byte>, bytes: seq<byte>, at: nat) returns (r: string)
    requires three.Length == 3 && four.Length == 4 && three != four && at <= |bytes|
    modifies four
    ensures r + TextToCome([], bytes, at) == ret + TextToCome(three[..], bytes, at)
  {
    assert three[..] == [three[0], three[1], three[2]] && [] + bytes[at..] == bytes[at..];
    EncodedBlock(three[0], three[1], three[2], bytes[at..]);
    Split(three, four);
    assert four[..4] == four[..];
    r := Emit(ret, four, 4);
  }

  method Encode(bytes: seq<byte>) returns (ret: string)
    ensures ret == Encoded(bytes)
  {
    ret := "";
    var three, four := new byte[3], new byte[4];
    var i, at := 0, 0;
    BytesEnd([], bytes);
    assert three[..0] == [];
    while at < |bytes|
      invariant 0 <= at <= |bytes| && 0 <= i < 3
      invariant ret + TextToCome(three[..i], bytes, at) == Encoded(bytes)
    {
      NextByte(three[..i], bytes, at);
      ghost var taken := three[..i];
      three[i] := bytes[at];
      assert three[..i + 1] == taken + [bytes[at]];
      i := i + 1;
      at := at + 1;
      if i == 3 {
        assert three[..3] == three[..];
        ret := EncodeBlock(ret, three, four, bytes, at);
        i := 0;
        assert three[..0] == [];
      }
    }
    BytesEnd(three[..i], bytes);
    if i != 0 {
      ret := EncodeRest(ret, three, four, i);
    }
  }

  // ---- Decoding ----------------------------------------------------------------------------------

  /** The three bytes of four values; a value is 255 where the text ended. */
  function Triple(v: seq<byte>): (t: seq<byte>)
    requires |v| == 4
    ensures |t| == 3
  {
    [First(v[0], v[1]), Second(v[1], v[2]), Third(v[2], v[3])]
  }

  function First(v: int, w: int): byte { (v * 4 + w / 16 % 4) % 0x100 }
  function Second(v: int, w: int): byte { (v % 16 * 16 + w / 4 % 16) % 0x100 }
  function Third(v: int, w: int): byte { (v % 4 * 64 + w) % 0x100 }

  /** The longest prefix of alphabet characters; the code stops at anything else. */
  function Text(s: string): (r: string)
    ensures forall c | c in r :: IsBase64(c)
  {
    if s == "" || s[0] == PAD || !IsBase64(s[0]) then "" else [s[0]] + Text(s[1..])
  }

  function Values(s: string): (v: seq<byte>)
    requires forall c | c in s :: IsBase64(c)
    ensures |v| == |s|
    ensures forall i | 0 <= i < |s| :: v[i] == Value(s[i])
  {
    seq(|s|, i requires 0 <= i < |s| => Value(s[i]))
  }

  /** The bytes of a text: four values make three bytes; of two or three values left the whole bytes
      count, and a single one is dropped. */
  function DecodedValues(v: seq<byte>): seq<byte> {
    if |v| >= 4 then Triple(v[..4]) + DecodedValues(v[4..])
    else if |v| <= 1 then []
    else Triple(v + seq(4 - |v|, _ => 0xFF))[..|v| - 1]
  }

  /** The values still to come from position `at` on. */
  function Remaining(s: string, at: nat): seq<byte>
    requires at <= |s|
  {
    Values(Text(s[at..]))
  }

  function Decoded(s: string): seq<byte> {
    DecodedValues(Remaining(s, 0))
  }

  /** Fill the three-place array from the four-place one and append its first `n` places. */
  method Join(ret: seq<byte>, four: array<byte>, three: array<byte>, n: nat) returns (r: seq<byte>)
    requires three.Length == 3 && four.Length == 4 && three != four && n <= 3
    modifies three
    ensures r == ret + Triple(four[..])[..n]
  {
    three[0] := First(four[0], four[1]);
    three[1] := Second(four[1], four[2]);
    three[2] := Third(four[2], four[3]);
    assert three[..] == Triple(four[..]);
    r := ret;
    for i := 0 to n
      invariant three[..] == Triple(four[..])
      invariant r == ret + three[..i]
    {
      r := r + [three[i]];
    }
    assert three[..n] == three[..][..n];
  }

  lemma DecodedBlock(v: seq<byte>, rest: seq<byte>)
    requires |v| == 4
    ensures DecodedValues(v + rest) == Triple(v) + DecodedValues(rest)
  {
    assert (v + rest)[..4] == v && (v + rest)[4..] == rest;
  }

  method DecodeRest(ret: seq<byte>, four: array<byte>, three: array<byte>, n: nat) returns (r: seq<byte>)
    requires three.Length == 3 && four.Length == 4 && three != four && 1 <= n <= 3
    modifies three, four
    ensures r == ret + DecodedValues(old(four[..n]))
  {
    ghost var rest := four[..n];
    for j := n to 4
      invariant four[..n] == rest
      invariant forall k | n <= k < j :: four[k] == 0xFF
    {
      four[j] := 0xFF;  // what looking up a zero character yields
    }
    assert four[..] == rest + seq(4 - n, _ => 0xFF);
    r := Join(ret, four, three, n - 1);
  }

  /** The bytes still to come when the values `taken` wait and `s` is read up to `at`. */
  function ToCome(taken: seq<byte>, s: string, at: nat): seq<byte>
    requires at <= |s|
  {
    DecodedValues(taken + Remaining(s, at))
  }

  lemma NextCharacter(taken: seq<byte>, s: string, at: nat)
    requires at < |s| && s[at] != PAD && IsBase64(s[at])
    ensures ToCome(taken, s, at) == ToCome(taken + [Value(s[at])], s, at + 1)
  {
    assert s[at..][1..] == s[at + 1..];
    assert Text(s[at..]) == [s[at]] + Text(s[at + 1..]);
    assert taken + Remaining(s, at) == (taken + [Value(s[at])]) + Remaining(s, at + 1);
  }

  lemma TextEnds(taken: seq<byte>, s: string, at: nat)
    requires at <= |s| && (at == |s| || s[at] == PAD || !IsBase64(s[at]))
    ensures ToCome(taken, s, at) == DecodedValues(taken)
  {
    assert Text(s[at..]) == "";
    assert taken + Remaining(s, at) == taken;
  }

  /** Four values become three bytes. */
  method DecodeBlock(ret: seq<byte>, four: array<byte>, three: array<byte>, s: string, at: nat) returns (r: seq<byte>)
    requires three.Length == 3 && four.Length == 4 && three != four && at <= |s|
    modifies three
    ensures r + ToCome([], s, at) == ret + ToCome(four[..], s, at)
  {
    DecodedBlock(four[..], Remaining(s, at));
    assert [] + Remaining(s, at) == Remaining(s, at);
    r := Join(ret, four, three, 3);
  }

  method Decode(s: string) returns (ret: seq<byte>)
    ensures ret == Decoded(s)
  {
    ret := [];
    var four, three := new byte[4], new byte[3];
    var i, at := 0, 0;
    assert [] + Remaining(s, 0) == Remaining(s, 0);
    assert four[..0] == [];
    while at < |s| && s[at] != PAD && IsBase64(s[at])
      invariant 0 <= at <= |s| && 0 <= i < 4
      invariant ret + ToCome(four[..i], s, at) == Decoded(s)
    {
      NextCharacter(four[..i], s, at);
      ghost var taken := four[..i];
      four[i] := Value(s[at]);
      assert four[..i + 1] == taken + [Value(s[at])];
      i := i + 1;
      at := at + 1;
      if i == 4 {
        assert four[..4] == four[..];
        ret := DecodeBlock(ret, four, three, s, at);
        i := 0;
        assert four[..0] == [];
      }
    }
    TextEnds(four[..i], s, at);
    if i != 0 {
      ret := DecodeRest(ret, four, three, i);
    }
  }

  // ---- The round trip ----------------------------------------------------------------------------

  lemma TextOfChars(v: seq<sextet>, tail: string)
    requires tail == "" || tail[0] == PAD
    ensures Text(Chars(v) + tail) == Chars(v) && Values(Chars(v)) == v
    decreases |v|
  {
    forall i | 0 <= i < |v| ensures Values(Chars(v))[i] == v[i] { CharsAndValues(v[i]); }
    if v == [] {
      assert Chars(v) + tail == tail;
    } else {
      CharsAndValues(v[0]);
      TextOfChars(v[1..], tail);
      assert Chars(v) == [Char(v[0])] + Chars(v[1..]);
      assert (Chars(v) + tail)[1..] == Chars(v[1..]) + tail;
    }
  }

  /** What the decoder reads from a text of sextets and padding is those sextets. */
  lemma RemainingOfChars(v: seq<sextet>, tail: string)
    requires tail == "" || tail[0] == PAD
    ensures Remaining(Chars(v) + tail, 0) == v
  {
    assert (Chars(v) + tail)[0..] == Chars(v) + tail;
    TextOfChars(v, tail);
  }

  /** The sextets of a text, and its padding. */
  function AllSextets(bytes: seq<byte>): seq<sextet> {
    if bytes == [] then []
    else if |bytes| == 1 then Sextets(bytes[0], 0, 0)[..2]
    else if |bytes| == 2 then Sextets(bytes[0], bytes[1], 0)[..3]
    else Sextets(bytes[0], bytes[1], bytes[2]) + AllSextets(bytes[3..])
  }

  function Padding(n: nat): string {
    if n % 3 == 0 then "" else if n % 3 == 1 then [PAD, PAD] else [PAD]
  }

  lemma ThreeMore(n: nat)
    requires n >= 3
    ensures (n + 2) / 3 * 4 == (n - 1) / 3 * 4 + 4 && Padding(n) == Padding(n - 3)
  {
  }

  lemma CharsConcat(s: seq<sextet>, t: seq<sextet>)
    ensures Chars(s + t) == Chars(s) + Chars(t)
  {
  }

  lemma {:induction false} EncodedIsSextets(bytes: seq<byte>)
    ensures Encoded(bytes) == Chars(AllSextets(bytes)) + Padding(|bytes|)
    ensures |Encoded(bytes)| == (|bytes| + 2) / 3 * 4
    decreases |bytes|
  {
    if |bytes| >= 3 {
      var s, rest := Sextets(bytes[0], bytes[1], bytes[2]), AllSextets(bytes[3..]);
      EncodedIsSextets(bytes[3..]);
      ThreeMore(|bytes|);
      CharsConcat(s, rest);
      assert (Chars(s) + Chars(rest)) + Padding(|bytes|) == Chars(s) + (Chars(rest) + Padding(|bytes|));
    } else if bytes == [] {
      assert Encoded(bytes) == Chars(AllSextets(bytes)) + Padding(0);
    }
  }

  lemma FirstByte(a: byte, b: byte)
    ensures First(a / 4, a % 4 * 16 + b / 16) == a
  {
  }

  lemma SecondByte(a: byte, b: byte, c: byte)
    ensures Second(a % 4 * 16 + b / 16, b % 16 * 4 + c / 64) == b
  {
    Nibbles(a % 4, b / 16, b % 16, c / 64);
  }

  lemma Nibbles(top: int, high: int, low: int, rest: int)
    requires 0 <= top < 4 && 0 <= high < 16 && 0 <= low < 16 && 0 <= rest < 4
    ensures (top * 16 + high) % 16 == high && (low * 4 + rest) / 4 == low
    ensures Second(top * 16 + high, low * 4 + rest) == high * 16 + low
  {
  }

  lemma ThirdByte(b: byte, c: byte)
    ensures Third(b % 16 * 4 + c / 64, c % 64) == c
  {
  }

  lemma TripleOfSextets(a: byte, b: byte, c: byte)
    ensures Triple(Sextets(a, b, c)) == [a, b, c]
  {
    FirstByte(a, b);
    SecondByte(a, b, c);
    ThirdByte(b, c);
  }

  /** The last one or two bytes come out of the padded sextets whatever fills the places left. */
  lemma PartialTriple(a: byte, b: byte)
    ensures var v := Sextets(a, 0, 0); First(v[0], v[1]) == a
    ensures var v := Sextets(a, b, 0); First(v[0], v[1]) == a && Second(v[1], v[2]) == b
  {
    FirstByte(a, 0);
    FirstByte(a, b);
    SecondByte(a, b, 0);
  }

  lemma {:induction false} DecodedSextets(bytes: seq<byte>)
    ensures DecodedValues(AllSextets(bytes)) == bytes
  {
    if |bytes| >= 3 {
      var s, rest := Sextets(bytes[0], bytes[1], bytes[2]), AllSextets(bytes[3..]);
      DecodedSextets(bytes[3..]);
      DecodedBlock(s, rest);
      TripleOfSextets(bytes[0], bytes[1], bytes[2]);
      assert bytes == [bytes[0], bytes[1], bytes[2]] + bytes[3..];
    } else if |bytes| == 2 {
      PartialTriple(bytes[0], bytes[1]);
    } else if |bytes| == 1 {
      PartialTriple(bytes[0], 0);
    } else {
      assert bytes == [];
    }
  }

  /** Decoding the encoding of any bytes gives them back, and the encoding has 4 * ceil(n / 3) characters. */
  lemma RoundTrip(bytes: seq<byte>)
    ensures Decoded(Encoded(bytes)) == bytes
    ensures |Encoded(bytes)| == (|bytes| + 2) / 3 * 4
  {
    EncodedIsSextets(bytes);
    assert Padding(|bytes|) == "" || Padding(|bytes|)[0] == PAD;
    RemainingOfChars(AllSextets(bytes), Padding(|bytes|));
    DecodedSextets(bytes);
  }

  /** Test vectors of section 10 of RFC 4648: f, fo and foo. */
  lemma TestVectors()
    ensures Encoded([102]) == "Zg==" && Encoded([102, 111]) == "Zm8=" && Encoded([102, 111, 111]) == "Zm9v"
  {
    assert [102, 111, 111][3..] == [];
    assert Chars(Sextets(102, 111, 111)) == "Zm9v";
    assert Chars(Sextets(102, 0, 0)[..2]) == "Zg";
    assert Chars(Sextets(102, 111, 0)[..3]) == "Zm8";
  }

  // ---- The grouping of RFC 4648 ------------------------------------------------------------------

  /** The `n` low bits of a number, most significant first. */
  function Bits(x: nat, n: nat): (b: seq<bool>)
    ensures |b| == n
  {
    if n == 0 then [] else Bits(x / 2, n - 1) + [x % 2 == 1]
  }

  function Pow2(n: nat): nat {
    if n == 0 then 1 else 2 * Pow2(n - 1)
  }

  /** The bits of a number are those of its high part and then those of its low part. */
  lemma {:induction false} BitsSplit(x: nat, y: nat, m: nat, n: nat)
    requires y < Pow2(n)
    ensures Bits(x * Pow2(n) + y, m + n) == Bits(x, m) + Bits(y, n)
    decreases n
  {
    if n == 0 {
      assert Bits(x, m) + [] == Bits(x, m);
    } else {
      var z := x * Pow2(n) + y;
      assert z == 2 * (x * Pow2(n - 1)) + y;
      assert z / 2 == x * Pow2(n - 1) + y / 2 && z % 2 == y % 2;
      BitsSplit(x, y / 2, m, n - 1);
      assert m + n - 1 == m + (n - 1);
    }
  }

  /** Numbers of `n` bits side by side. */
  function AllBits(xs: seq<nat>, n: nat): seq<bool> {
    if xs == [] then [] else Bits(xs[0], n) + AllBits(xs[1..], n)
  }

  lemma {:induction false} AllBitsConcat(s: seq<nat>, t: seq<nat>, n: nat)
    ensures AllBits(s + t, n) == AllBits(s, n) + AllBits(t, n)
  {
    if s == [] {
      assert s + t == t;
    } else {
      AllBitsConcat(s[1..], t, n);
      assert (s + t)[1..] == s[1..] + t && (s + t)[0] == s[0];
      Assoc(Bits(s[0], n), AllBits(s[1..], n), AllBits(t, n));
    }
  }

  /** The number that digits in base `w` stand for, most significant first. */
  function Positional(xs: seq<nat>, w: nat): nat {
    if xs == [] then 0 else Positional(xs[..|xs| - 1], w) * w + xs[|xs| - 1]
  }

  /** Side by side, digits in base 2^n are the bits of the number they stand for. */
  lemma {:induction false} BitsOfPositional(xs: seq<nat>, n: nat, w: nat)
    requires w == Pow2(n) && forall x | x in xs :: x < w
    ensures AllBits(xs, n) == Bits(Positional(xs, w), |xs| * n)
  {
    if xs == [] {
    } else {
      var k := |xs| - 1;
      assert xs[k] in xs && forall x | x in xs[..k] :: x in xs;
      BitsOfPositional(xs[..k], n, w);
      assert xs == xs[..k] + [xs[k]];
      OneMoreDigit(xs[..k], Positional(xs[..k], w), k * n, xs[k], n, w);
      OneMore(k, n);
    }
  }

  lemma OneMore(k: nat, n: nat)
    ensures k * n + n == (k + 1) * n
  {
  }

  lemma OneMoreDigit(xs: seq<nat>, p: nat, m: nat, x: nat, n: nat, w: nat)
    requires AllBits(xs, n) == Bits(p, m) && w == Pow2(n) && x < w
    ensures AllBits(xs + [x], n) == Bits(p * w + x, m + n)
  {
    AllBitsConcat(xs, [x], n);
    assert AllBits([x], n) == Bits(x, n) + [];
    BitsSplit(p, x, m, n);
  }

  /** Digits that stand for the same number, up to zero bits at the end, carry the same bits. */
  lemma SameBits(xs: seq<nat>, m: nat, v: nat, ys: seq<nat>, n: nat, w: nat, zeros: nat)
    requires v == Pow2(m) && forall x | x in xs :: x < v
    requires w == Pow2(n) && forall y | y in ys :: y < w
    requires |xs| * m == |ys| * n + zeros
    requires Positional(xs, v) == Positional(ys, w) * Pow2(zeros)
    ensures AllBits(xs, m) == AllBits(ys, n) + Bits(0, zeros)
  {
    BitsOfPositional(xs, m, v);
    BitsOfPositional(ys, n, w);
    ZerosAfter(Positional(xs, v), |xs| * m, Positional(ys, w), |ys| * n, zeros);
  }

  lemma ZerosAfter(p: nat, l: nat, q: nat, m: nat, zeros: nat)
    requires p == q * Pow2(zeros) && l == m + zeros
    ensures Bits(p, l) == Bits(q, m) + Bits(0, zeros)
  {
    Pow2Positive(zeros);
    BitsSplit(q, 0, m, zeros);
  }

  lemma {:induction false} Pow2Positive(n: nat)
    ensures Pow2(n) > 0
  {
    if n == 0 {
    } else {
      Pow2Positive(n - 1);
    }
  }

  lemma Bases()
    ensures Pow2(0) == 1 && Pow2(2) == 4 && Pow2(4) == 16 && Pow2(6) == 64 && Pow2(8) == 256
  {
  }

  lemma PositionalOfOne(a: nat, w: nat)
    ensures Positional([a], w) == a
  {
    assert [a][..0] == [];
  }

  lemma PositionalOfTwo(a: nat, b: nat, w: nat)
    ensures Positional([a, b], w) == a * w + b
  {
    assert [a, b][..1] == [a];
    PositionalOfOne(a, w);
  }

  lemma PositionalOfThree(a: nat, b: nat, c: nat, w: nat)
    ensures Positional([a, b, c], w) == (a * w + b) * w + c
  {
    assert [a, b, c][..2] == [a, b];
    PositionalOfTwo(a, b, w);
  }

  lemma PositionalOfFour(a: nat, b: nat, c: nat, d: nat, w: nat)
    ensures Positional([a, b, c, d], w) == ((a * w + b) * w + c) * w + d
  {
    assert [a, b, c, d][..3] == [a, b, c];
    PositionalOfThree(a, b, c, w);
  }

  /** Zero bits that fill the last sextet of a text of `n` bytes. */
  function Fill(n: nat): nat {
    if n % 3 == 0 then 0 else if n % 3 == 1 then 4 else 2
  }

  /** Four characters carry the 24-bit group of three bytes. */
  lemma SextetsKeepBits(a: byte, b: byte, c: byte)
    ensures AllBits(Sextets(a, b, c), 6) == AllBits([a, b, c], 8)
  {
    var s := Sextets(a, b, c);
    Bases();
    assert s == [s[0], s[1], s[2], s[3]];
    PositionalOfFour(s[0], s[1], s[2], s[3], 64);
    PositionalOfThree(a, b, c, 256);
    SameBits(s, 6, 64, [a, b, c], 8, 256, 0);
  }

  /** Two characters carry one byte and four zero bits. */
  lemma TwoSextetsKeepBits(a: byte)
    ensures AllBits(Sextets(a, 0, 0)[..2], 6) == AllBits([a], 8) + Bits(0, 4)
  {
    var s := Sextets(a, 0, 0)[..2];
    Bases();
    assert s == [s[0], s[1]];
    PositionalOfTwo(s[0], s[1], 64);
    PositionalOfOne(a, 256);
    SameBits(s, 6, 64, [a], 8, 256, 4);
  }

  /** Three characters carry two bytes and two zero bits. */
  lemma ThreeSextetsKeepBits(a: byte, b: byte)
    ensures AllBits(Sextets(a, b, 0)[..3], 6) == AllBits([a, b], 8) + Bits(0, 2)
  {
    var s := Sextets(a, b, 0)[..3];
    Bases();
    assert s == [s[0], s[1], s[2]];
    PositionalOfThree(s[0], s[1], s[2], 64);
    PositionalOfTwo(a, b, 256);
    SameBits(s, 6, 64, [a, b], 8, 256, 2);
  }

  /** The characters of a text carry the bits of the bytes in order, then zeros to a multiple of six, then
      padding to a multiple of four characters: the encoding that section 4 of RFC 4648 describes. */
  lemma EncodingGroupsBits(bytes: seq<byte>)
    ensures AllBits(AllSextets(bytes), 6) == AllBits(bytes, 8) + Bits(0, Fill(|bytes|))
    ensures Encoded(bytes) == Chars(AllSextets(bytes)) + Padding(|bytes|)
  {
    EncodedIsSextets(bytes);
    SextetsGroupBits(bytes);
  }

  lemma {:induction false} SextetsGroupBits(bytes: seq<byte>)
    ensures AllBits(AllSextets(bytes), 6) == AllBits(bytes, 8) + Bits(0, Fill(|bytes|))
    decreases |bytes|
  {
    if bytes == [] {
    } else if |bytes| == 1 {
      assert bytes == [bytes[0]];
      TwoSextetsKeepBits(bytes[0]);
    } else if |bytes| == 2 {
      assert bytes == [bytes[0], bytes[1]];
      ThreeSextetsKeepBits(bytes[0], bytes[1]);
    } else {
      var first, rest := [bytes[0], bytes[1], bytes[2]], bytes[3..];
      assert bytes == first + rest;
      SextetsKeepBits(bytes[0], bytes[1], bytes[2]);
      AllBitsConcat(Sextets(bytes[0], bytes[1], bytes[2]), AllSextets(rest), 6);
      AllBitsConcat(first, rest, 8);
      SextetsGroupBits(rest);
      SameFill(|bytes|);
      Assoc(AllBits(first, 8), AllBits(rest, 8), Bits(0, Fill(|rest|)));
    }
  }

  lemma Assoc(x: seq<bool>, y: seq<bool>, z: seq<bool>)
    ensures x + (y + z) == (x + y) + z
  {
  }

  lemma SameFill(n: nat)
    requires n >= 3
    ensures Fill(n) == Fill(n - 3)
  {
  }
}
