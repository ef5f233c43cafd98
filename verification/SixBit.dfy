/** Packed 6-bit ASCII (section 13): characters ' '..'_' laid out as a little-endian stream of
    six-bit groups over bytes. */
module SixBit {
  import opened Bytes

  function SixBitToChar(val: nat): (c: byte)
    ensures 32 <= c < 96
  {
    val % 64 + 32
  }

  /** The bit stream of some bytes, as a number. */
  function Stream(data: seq<byte>): nat {
    if data == [] then 0 else data[0] + 256 * Stream(data[1..])
  }

  /** The first `m` six-bit groups of a bit stream. */
  function Sextets(v: nat, m: nat): (s: seq<byte>)
    ensures |s| == m
    decreases m
  {
    if m == 0 then [] else [SixBitToChar(v)] + Sextets(v / 64, m - 1)
  }

  /** The text of packed bytes: one character for every complete six-bit group. */
  function SixBitText(data: seq<byte>): (s: seq<byte>)
    ensures |s| == 4 * |data| / 3
  {
    Sextets(Stream(data), 4 * |data| / 3)
  }

  /** `x` shifted left by `b` bits, for the bit counts the accumulator goes through. */
  function Shifted(x: nat, b: nat): nat
    requires b <= 12 && b % 2 == 0
  {
    if b == 0 then x else if b == 2 then 4 * x else if b == 4 then 16 * x else if b == 6 then 64 * x
    else if b == 8 then 256 * x else if b == 10 then 1024 * x else 4096 * x
  }

  lemma LoadByte(accum: nat, b: nat, d: byte, more: nat)
    requires b == 0 || b == 2 || b == 4
    requires accum < Shifted(1, b)
    ensures accum + Shifted(d + 256 * more, b) == (accum + Shifted(d, b)) + Shifted(more, b + 8)
    ensures accum + Shifted(d, b) < Shifted(1, b + 8)
  {
  }

  lemma TakeSextet(accum: nat, b: nat, more: nat)
    requires b == 6 || b == 8 || b == 10 || b == 12
    requires accum < Shifted(1, b)
    ensures (accum + Shifted(more, b)) % 64 == accum % 64
    ensures (accum + Shifted(more, b)) / 64 == accum / 64 + Shifted(more, b - 6)
    ensures accum / 64 < Shifted(1, b - 6)
  {
    assert accum == 64 * (accum / 64) + accum % 64;
    assert accum + Shifted(more, b) == 64 * (accum / 64 + Shifted(more, b - 6)) + accum % 64;
  }

  lemma EmitSextet(value: seq<byte>, v: nat, m: nat, accum: nat)
    requires m > 0 && v % 64 == accum % 64
    ensures value + Sextets(v, m) == (value + [SixBitToChar(accum % 64)]) + Sextets(v / 64, m - 1)
  {
    Assoc(value, [SixBitToChar(v)], Sextets(v / 64, m - 1));
  }

  /** `value`, and behind it the groups of what the accumulator holds and the bytes `more`, make up
      `text`. */
  predicate Owes(value: seq<byte>, accum: nat, b: nat, more: nat, text: seq<byte>) {
    && b <= 12 && b % 2 == 0 && accum < Shifted(1, b) && |value| <= |text|
    && value + Sextets(accum + Shifted(more, b), |text| - |value|) == text
  }

  lemma OwesLoad(value: seq<byte>, accum: nat, b: nat, d: byte, more: nat, text: seq<byte>)
    requires Owes(value, accum, b, d + 256 * more, text) && b <= 4
    ensures Owes(value, accum + Shifted(d, b), b + 8, more, text)
  {
    LoadByte(accum, b, d, more);
  }

  /** One complete group leaves the accumulator for the text. */
  lemma OwesStep(value: seq<byte>, accum: nat, b: nat, more: nat, text: seq<byte>)
    requires Owes(value, accum, b, more, text) && b >= 6 && |value| < |text|
    ensures Owes(value + [SixBitToChar(accum % 64)], accum / 64, b - 6, more, text)
  {
    TakeSextet(accum, b, more);
    EmitSextet(value, accum + Shifted(more, b), |text| - |value|, accum);
  }

  /** One byte into the accumulator, and the complete groups out of it. */
  method AddByte(accum0: nat, bits: nat, value0: seq<byte>, d: byte, ghost more: nat, ghost text: seq<byte>)
    returns (accum: nat, accumBitLen: nat, value: seq<byte>)
    requires Owes(value0, accum0, bits, d + 256 * more, text) && bits <= 4
    requires bits + 8 < 6 * (|text| - |value0|) + 6
    ensures Owes(value, accum, accumBitLen, more, text) && accumBitLen <= 4
    ensures 6 * (|value| - |value0|) + accumBitLen == bits + 8
  {
    OwesLoad(value0, accum0, bits, d, more, text);
    accum, accumBitLen, value := accum0 + Shifted(d, bits), bits + 8, value0;
    while accumBitLen >= 6
      invariant Owes(value, accum, accumBitLen, more, text)
      invariant 6 * (|value| - |value0|) + accumBitLen == bits + 8
    {
      OwesStep(value, accum, accumBitLen, more, text);
      value := value + [SixBitToChar(accum % 64)];
      accum := accum / 64;
      accumBitLen := accumBitLen - 6;
    }
  }

  /** There is room for the groups the next byte completes, and at the end none is left over. */
  lemma RoomLeft(n: nat, i: nat, v: nat, bits: nat)
    requires 8 * i == 6 * v + bits && bits <= 4 && i <= n
    ensures v <= 4 * n / 3
    ensures i < n ==> bits + 8 < 6 * (4 * n / 3 - v) + 6
    ensures i == n ==> v == 4 * n / 3
  {
  }

  lemma OwesStart(data: seq<byte>)
    ensures Owes([], 0, 0, Stream(data), SixBitText(data))
  {
  }

  /** The accumulator loop of `decodeFRUData`, on the way to `text`. It never holds more than twelve
      bits. */
  method DecodeTo(data: seq<byte>, ghost text: seq<byte>) returns (value: seq<byte>)
    requires Owes([], 0, 0, Stream(data), text) && |text| == 4 * |data| / 3
    ensures value == text
  {
    var accum: nat, accumBitLen: nat := 0, 0;
    value := [];
    ghost var rest := Stream(data);
    assert data[0..] == data;
    var i := 0;
    while i < |data|
      invariant i <= |data| && rest == Stream(data[i..])
      invariant Owes(value, accum, accumBitLen, rest, text) && accumBitLen <= 4
      invariant 8 * i == 6 * |value| + accumBitLen
    {
      assert data[i..][1..] == data[i + 1..];
      rest := Stream(data[i + 1..]);
      RoomLeft(|data|, i, |value|, accumBitLen);
      accum, accumBitLen, value := AddByte(accum, accumBitLen, value, data[i], rest, text);
      i := i + 1;
    }
    RoomLeft(|data|, i, |value|, accumBitLen);
  }

  method DecodeSixBit(data: seq<byte>) returns (value: seq<byte>)
    ensures value == SixBitText(data)
  {
    OwesStart(data);
    value := DecodeTo(data, SixBitText(data));
  }

  predicate SixBitString(s: seq<byte>) {
    forall i :: 0 <= i < |s| ==> 32 <= s[i] < 96
  }

  /** The bit stream of a six-bit string. */
  function SextetStream(s: seq<byte>): nat
    requires SixBitString(s)
  {
    if s == [] then 0 else s[0] - 32 + 64 * SextetStream(s[1..])
  }

  function StreamBytes(v: nat, m: nat): seq<byte>
    decreases m
  {
    if m == 0 then [] else [v % 256] + StreamBytes(v / 256, m - 1)
  }

  /** Packing as section 13 lays it out: the stream cut into as many bytes as it takes. */
  function Pack(s: seq<byte>): seq<byte>
    requires SixBitString(s)
  {
    StreamBytes(SextetStream(s), (3 * |s| + 3) / 4)
  }

  function Power(base: nat, n: nat): nat {
    if n == 0 then 1 else base * Power(base, n - 1)
  }

  lemma {:induction false} StreamOfBytes(v: nat, m: nat)
    requires v < Power(256, m)
    ensures |StreamBytes(v, m)| == m && Stream(StreamBytes(v, m)) == v
    decreases m
  {
    if m > 0 {
      StreamOfBytes(v / 256, m - 1);
      assert StreamBytes(v, m)[1..] == StreamBytes(v / 256, m - 1);
    }
  }

  lemma {:induction false} SextetStreamBound(s: seq<byte>)
    requires SixBitString(s)
    ensures SextetStream(s) < Power(64, |s|)
  {
    if s != [] {
      SextetStreamBound(s[1..]);
    }
  }

  /** n sextets fit into ceil(3n/4) bytes. */
  lemma {:induction false} SextetsFit(n: nat)
    ensures Power(64, n) <= Power(256, (3 * n + 3) / 4)
  {
    if n < 4 {
      assert Power(64, 1) == 64 && Power(64, 2) == 4096 && Power(64, 3) == 262144;
      assert Power(256, 1) == 256 && Power(256, 2) == 65536 && Power(256, 3) == 16777216;
    } else {
      SextetsFit(n - 4);
      var m := (3 * (n - 4) + 3) / 4;
      FourSextets(n - 4);
      ThreeBytes(m);
      assert (3 * n + 3) / 4 == m + 3;
    }
  }

  lemma FourSextets(n: nat)
    ensures Power(64, n + 4) == 16777216 * Power(64, n)
  {
    assert Power(64, n + 2) == 64 * Power(64, n + 1) == 4096 * Power(64, n);
    assert Power(64, n + 4) == 64 * Power(64, n + 3) == 4096 * Power(64, n + 2);
  }

  lemma ThreeBytes(m: nat)
    ensures Power(256, m + 3) == 16777216 * Power(256, m)
  {
    assert Power(256, m + 3) == 256 * Power(256, m + 2);
    assert Power(256, m + 2) == 256 * Power(256, m + 1) == 65536 * Power(256, m);
  }

  lemma {:induction false} SextetsOfStream(s: seq<byte>)
    requires SixBitString(s)
    ensures Sextets(SextetStream(s), |s|) == s
    ensures Sextets(SextetStream(s), |s| + 1) == s + [32]
  {
    if s == [] {
      assert Sextets(0, 1) == [SixBitToChar(0)] + Sextets(0, 0);
    } else {
      SextetsOfStream(s[1..]);
      var v, w := SextetStream(s), SextetStream(s[1..]);
      assert v == s[0] - 32 + 64 * w;
      assert v / 64 == w && v % 64 == s[0] - 32;
      assert [s[0]] + s[1..] == s && [s[0]] + (s[1..] + [32]) == s + [32];
    }
  }

  lemma PackedLength(n: nat)
    ensures 4 * ((3 * n + 3) / 4) / 3 == if n % 4 == 3 then n + 1 else n
  {
    var q, r := n / 4, n % 4;
    assert n == 4 * q + r && (3 * n + 3) / 4 == 3 * q + (3 * r + 3) / 4;
  }

  /** Decoding gives a packed string back, but for one trailing space when its length is 3 modulo
      4: there the last packed byte has room for one more group. */
  lemma UnpackPacked(s: seq<byte>)
    requires SixBitString(s)
    ensures SixBitText(Pack(s)) == if |s| % 4 == 3 then s + [32] else s
    ensures SixBitText(Pack(s)) == s <==> |s| % 4 != 3
  {
    SextetStreamBound(s);
    SextetsFit(|s|);
    StreamOfBytes(SextetStream(s), (3 * |s| + 3) / 4);
    SextetsOfStream(s);
    PackedLength(|s|);
  }

  lemma SextetStep(low: nat, v: nat, m: nat)
    requires low < 64
    ensures Sextets(low + 64 * v, m + 1) == [32 + low] + Sextets(v, m)
  {
  }

  lemma ThreeByteSextets(a: byte, b: byte, c: byte, more: nat, m: nat)
    ensures Sextets(a + 256 * (b + 256 * (c + 256 * more)), m + 4) ==
            [32 + a % 64, 32 + a / 64 + 4 * (b % 16), 32 + b / 16 + 16 * (c % 4), 32 + c / 4] + Sextets(more, m)
  {
    var one, two, three := a / 64 + 4 * (b % 16), b / 16 + 16 * (c % 4), c / 4;
    SextetStep(three, more, m);
    SextetStep(two, three + 64 * more, m + 1);
    SextetStep(one, two + 64 * (three + 64 * more), m + 2);
    SextetStep(a % 64, one + 64 * (two + 64 * (three + 64 * more)), m + 3);
    assert a + 256 * (b + 256 * (c + 256 * more)) == a % 64 + 64 * (one + 64 * (two + 64 * (three + 64 * more)));
  }

  lemma StreamCons(a: byte, rest: seq<byte>)
    ensures Stream([a] + rest) == a + 256 * Stream(rest)
  {
    assert ([a] + rest)[1..] == rest;
  }

  /** Three bytes hold four characters, their low bits first. */
  lemma SixBitThree(a: byte, b: byte, c: byte, rest: seq<byte>)
    ensures SixBitText([a, b, c] + rest) ==
            [32 + a % 64, 32 + a / 64 + 4 * (b % 16), 32 + b / 16 + 16 * (c % 4), 32 + c / 4] + SixBitText(rest)
  {
    assert [a, b, c] + rest == [a] + ([b] + ([c] + rest));
    StreamCons(c, rest);
    StreamCons(b, [c] + rest);
    StreamCons(a, [b] + ([c] + rest));
    ThreeByteSextets(a, b, c, Stream(rest), 4 * |rest| / 3);
  }

  /** What is left over of one or two bytes at the end is dropped. */
  lemma SixBitEnd(a: byte, b: byte)
    ensures SixBitText([a, b]) == [32 + a % 64, 32 + a / 64 + 4 * (b % 16)]
    ensures SixBitText([a]) == [32 + a % 64] && SixBitText([]) == []
  {
    StreamCons(a, []);
    StreamCons(b, []);
    StreamCons(a, [b]);
    assert [a] + [] == [a] && [b] + [] == [b] && [a] + [b] == [a, b];
    SextetStep(a % 64, a / 64, 0);
    TwoByteSextets(a, b);
  }

  lemma TwoByteSextets(a: byte, b: byte)
    ensures Sextets(a + 256 * b, 2) == [32 + a % 64, 32 + a / 64 + 4 * (b % 16)]
  {
    var one, two := a / 64 + 4 * (b % 16), b / 16;
    SextetStep(one, two, 0);
    SextetStep(a % 64, one + 64 * two, 1);
    assert a + 256 * b == a % 64 + 64 * (one + 64 * two);
  }
}
