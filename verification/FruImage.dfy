/** Taking a FRU image apart into its five areas and putting it together again
    (common header of section 8, layout of section 17). */
module FruImage {
  import opened Bytes

  const HEADER := 8

  /** The header byte holding area `i`'s offset, in blocks. */
  function OffsetByte(fru: seq<byte>, i: nat): (b: nat)
    requires HEADER <= |fru| && i < 5
    ensures b < 256
  {
    fru[1 + i]
  }

  predicate Aligned(areas: seq<seq<byte>>) {
    forall i :: 0 <= i < |areas| ==> |areas[i]| % BLOCK == 0
  }

  function Flat(areas: seq<seq<byte>>): seq<byte> {
    if areas == [] then [] else Flat(areas[..|areas| - 1]) + areas[|areas| - 1]
  }

  /** Byte offset of area `i` in the assembled image. */
  function Start(areas: seq<seq<byte>>, i: nat): nat
    requires i <= |areas|
  {
    HEADER + |Flat(areas[..i])|
  }

  function HeaderByte(areas: seq<seq<byte>>, i: nat): byte
    requires i < |areas|
  {
    if areas[i] == [] then 0 else Start(areas, i) / BLOCK % 256
  }

  /** The header's seven bytes in front of its checksum. */
  function HeaderBody(areas: seq<seq<byte>>): seq<byte>
    requires |areas| == 5
  {
    [1] + seq(5, i requires 0 <= i < 5 => HeaderByte(areas, i)) + [0]
  }

  function Header(areas: seq<seq<byte>>): seq<byte>
    requires |areas| == 5
  {
    HeaderBody(areas) + [CalculateChecksum(HeaderBody(areas))]
  }

  /** The image assembled from five areas. */
  function Image(areas: seq<seq<byte>>): seq<byte>
    requires |areas| == 5
  {
    Header(areas) + Flat(areas)
  }

  lemma ImageHeader(areas: seq<seq<byte>>)
    requires |areas| == 5
    ensures |Image(areas)| == Start(areas, 5)
    ensures Image(areas)[0] == 1 && Image(areas)[6] == 0
    ensures Image(areas)[..7] == HeaderBody(areas)
    ensures Image(areas)[7] == CalculateChecksum(HeaderBody(areas))
    ensures forall i :: 0 <= i < 5 ==> OffsetByte(Image(areas), i) == HeaderByte(areas, i)
    ensures Image(areas)[8..] == Flat(areas)
  {
    assert areas[..5] == areas;
  }

  method AssembleFruData(areasData: seq<seq<byte>>, fruData: seq<byte>) returns (ok: bool, result: seq<byte>)
    requires |areasData| == 5
    ensures ok <==> Aligned(areasData)
    ensures result == if ok then Image(areasData) else fruData
  {
    var i := 0;
    while i < |areasData|
      invariant i <= |areasData|
      invariant forall j :: 0 <= j < i ==> |areasData[j]| % BLOCK == 0
    {
      if |areasData[i]| % BLOCK != 0 {
        return false, fruData;
      }
      i := i + 1;
    }
    result := [1, 0, 0, 0, 0, 0, 0, 0];
    var writeOffset := HEADER;
    i := 0;
    while i < 5
      invariant i <= 5 && writeOffset == Start(areasData, i) == |result|
      invariant result[0] == 1 && result[6] == 0 && result[7] == 0
      invariant forall j :: 0 <= j < 5 ==> OffsetByte(result, j) == if j < i then HeaderByte(areasData, j) else 0
      invariant result[HEADER..] == Flat(areasData[..i])
    {
      assert areasData[..i + 1][..i] == areasData[..i];
      if areasData[i] != [] {
        var marked := result[1 + i := writeOffset / BLOCK % 256];
        assert marked[HEADER..] == result[HEADER..];
        assert OffsetByte(marked, i) == HeaderByte(areasData, i);
        assert forall j :: 0 <= j < 5 && j != i ==> OffsetByte(marked, j) == OffsetByte(result, j);
        result := marked + areasData[i];
        assert forall j :: 0 <= j < 5 ==> OffsetByte(result, j) == OffsetByte(marked, j);
        writeOffset := writeOffset + |areasData[i]|;
      }
      i := i + 1;
    }
    assert areasData[..5] == areasData;
    assert result[..7] == HeaderBody(areasData);
    result := result[7 := CalculateChecksum(result[..7])];
    assert result == Header(areasData) + Flat(areasData);
    ok := true;
  }

  /** The first non-zero offset among header bytes `i`..5. */
  function FirstSet(fru: seq<byte>, i: nat): (r: Option<byte>)
    requires HEADER <= |fru| && i <= 6
    ensures r.Some? ==> exists j :: i <= j < 6 && fru[j] == r.value != 0 && forall k :: i <= k < j ==> fru[k] == 0
    ensures r.None? ==> forall j :: i <= j < 6 ==> fru[j] == 0
    decreases 6 - i
  {
    if i == 6 then None else if fru[i] != 0 then Some(fru[i]) else FirstSet(fru, i + 1)
  }

  /** `calculateAreaSize`. Internal runs to the next area, Multirecord to the end of the image, the
      info areas as far as their own length byte says. */
  function AreaSize(fru: seq<byte>, i: nat): Option<int>
    requires HEADER <= |fru| && i < 5
  {
    var offset := OffsetByte(fru, i) * BLOCK;
    if i == 0 then
      match FirstSet(fru, 2)
      case Some(next) => Some(next * BLOCK - offset)
      case None => None
    else if i == 4 then Some(|fru| - offset)
    else if offset + 1 >= |fru| then None
    else Some(fru[offset + 1] * BLOCK)
  }

  /** The bytes of area `i`, [] when the header says it is absent, None when its size is not known or
      it does not end inside the image. */
  function AreaBytes(fru: seq<byte>, i: nat): Option<seq<byte>>
    requires HEADER <= |fru| && i < 5
  {
    var offset := OffsetByte(fru, i) * BLOCK;
    if offset == 0 then Some([])
    else
      match AreaSize(fru, i)
      case None => None
      case Some(size) => if size < 0 || offset + size > |fru| then None else Some(fru[offset..offset + size])
  }

  /** The area's size, an unsigned difference in the source, is below zero, and the wrapped sum of
      offset and size is nevertheless inside the image. */
  predicate Wraps(fru: seq<byte>, i: nat)
    requires HEADER <= |fru| && i < 5
  {
    OffsetByte(fru, i) != 0 && AreaSize(fru, i).Some? && AreaSize(fru, i).value < 0
    && OffsetByte(fru, i) * BLOCK + AreaSize(fru, i).value <= |fru|
  }

  /** Taking the image apart does not come to such an area. */
  predicate Sane(fru: seq<byte>) {
    |fru| >= HEADER ==> forall i :: 0 <= i < 5 && Wraps(fru, i) ==> exists j :: 0 <= j < i && AreaBytes(fru, j).None?
  }

  function Disassembled(fru: seq<byte>): (r: Option<seq<seq<byte>>>)
    ensures r.Some? ==> |r.value| == 5
  {
    if |fru| < HEADER || exists i :: 0 <= i < 5 && AreaBytes(fru, i).None? then None
    else Some(seq(5, i requires 0 <= i < 5 => AreaBytes(fru, i).value))
  }

  method DisassembleFruData(fruData: seq<byte>) returns (ok: bool, areasData: seq<seq<byte>>)
    requires Sane(fruData)
    ensures ok <==> Disassembled(fruData).Some?
    ensures ok ==> areasData == Disassembled(fruData).value
  {
    areasData := [];
    if |fruData| < HEADER {
      return false, areasData;
    }
    var area := 0;
    while area < 5
      invariant area <= 5 && |areasData| == area
      invariant forall i :: 0 <= i < area ==> AreaBytes(fruData, i) == Some(areasData[i])
    {
      var areaOffset := OffsetByte(fruData, area);
      if areaOffset == 0 {
        assert AreaBytes(fruData, area) == Some([]);
        areasData := areasData + [[]];
      } else {
        areaOffset := areaOffset * BLOCK;
        var areaSize := AreaSize(fruData, area);
        if areaSize.None? || areaOffset + areaSize.value > |fruData| {
          assert AreaBytes(fruData, area).None?;
          return false, areasData;
        }
        assert !Wraps(fruData, area);
        assert AreaBytes(fruData, area) == Some(fruData[areaOffset..areaOffset + areaSize.value]);
        areasData := areasData + [fruData[areaOffset..areaOffset + areaSize.value]];
      }
      area := area + 1;
    }
    ok := true;
  }

  lemma {:induction false} FlatSlice(areas: seq<seq<byte>>, i: nat)
    requires i < |areas|
    ensures var p := |Flat(areas[..i])|;
            p + |areas[i]| <= |Flat(areas)| && Flat(areas)[p..p + |areas[i]|] == areas[i]
    ensures i + 1 == |areas| ==> |Flat(areas[..i])| + |areas[i]| == |Flat(areas)|
  {
    var init := areas[..|areas| - 1];
    if i + 1 == |areas| {
      assert areas[..i] == init;
    } else {
      FlatSlice(init, i);
      assert init[..i] == areas[..i] && init[i] == areas[i];
    }
  }

  lemma {:induction false} StartsGrow(areas: seq<seq<byte>>, i: nat, j: nat)
    requires i < j <= |areas|
    ensures Start(areas, i) + |areas[i]| <= Start(areas, j)
    ensures (forall k :: i < k < j ==> areas[k] == []) ==> Start(areas, i) + |areas[i]| == Start(areas, j)
  {
    assert areas[..j][..j - 1] == areas[..j - 1];
    if i + 1 < j {
      StartsGrow(areas, i, j - 1);
    }
  }

  lemma {:induction false} StartsAligned(areas: seq<seq<byte>>, i: nat)
    requires Aligned(areas) && i <= |areas|
    ensures Start(areas, i) % BLOCK == 0
  {
    if i > 0 {
      StartsAligned(areas, i - 1);
      assert areas[..i][..i - 1] == areas[..i - 1];
    }
  }

  /** Every present area starts within the 255 blocks a header byte can address. */
  predicate Addressable(areas: seq<seq<byte>>) {
    forall i :: 0 <= i < |areas| && areas[i] != [] ==> Start(areas, i) <= 255 * BLOCK
  }

  /** That is: the header tells where every present area starts. */
  lemma HeaderTells(areas: seq<seq<byte>>)
    requires Aligned(areas)
    ensures Addressable(areas) <==>
              forall i :: 0 <= i < |areas| && areas[i] != [] ==> HeaderByte(areas, i) as int * 8 == Start(areas, i)
  {
    forall i | 0 <= i < |areas| && areas[i] != []
      ensures Start(areas, i) <= 255 * BLOCK <==> HeaderByte(areas, i) as int * 8 == Start(areas, i)
    {
      StartsAligned(areas, i);
    }
  }

  /** The length byte of every present info area is right. */
  predicate Measured(areas: seq<seq<byte>>) {
    |areas| == 5 && forall i :: 1 <= i < 4 && areas[i] != [] ==> |areas[i]| >= 2 && areas[i][1] * BLOCK == |areas[i]|
  }

  /** A present Internal area has an area behind it to mark its end. */
  predicate InternalEnds(areas: seq<seq<byte>>)
    requires |areas| == 5
  {
    areas[0] != [] ==> exists i :: 1 <= i < 5 && areas[i] != []
  }

  lemma HeaderOffset(areas: seq<seq<byte>>, i: nat)
    requires |areas| == 5 && i < 5 && Aligned(areas) && Addressable(areas)
    ensures HeaderByte(areas, i) * BLOCK == if areas[i] == [] then 0 else Start(areas, i)
  {
    StartsAligned(areas, i);
  }

  /** In an assembled image Internal runs exactly to the next present area. */
  lemma InternalSize(areas: seq<seq<byte>>)
    requires |areas| == 5 && Aligned(areas) && Addressable(areas) && areas[0] != []
    ensures AreaSize(Image(areas), 0) == if InternalEnds(areas) then Some(|areas[0]|) else None
  {
    var fru := Image(areas);
    ImageHeader(areas);
    HeaderOffset(areas, 0);
    var next := FirstSet(fru, 2);
    if next.None? {
      forall i | 1 <= i < 5
        ensures areas[i] == []
      {
        assert OffsetByte(fru, i) == HeaderByte(areas, i) == 0;
        HeaderOffset(areas, i);
      }
    } else {
      var j :| 2 <= j < 6 && fru[j] == next.value != 0 && forall k :: 2 <= k < j ==> fru[k] == 0;
      assert OffsetByte(fru, j - 1) == HeaderByte(areas, j - 1);
      HeaderOffset(areas, j - 1);
      forall k | 0 < k < j - 1
        ensures areas[k] == []
      {
        assert OffsetByte(fru, k) == HeaderByte(areas, k) == 0;
        HeaderOffset(areas, k);
      }
      StartsGrow(areas, 0, j - 1);
    }
  }

  lemma AssembledSane(areas: seq<seq<byte>>)
    requires |areas| == 5 && Aligned(areas) && Addressable(areas)
    ensures Sane(Image(areas))
  {
    ImageHeader(areas);
    HeaderOffset(areas, 0);
    HeaderOffset(areas, 4);
    StartsGrow(areas, 4, 5);
    if areas[0] != [] {
      InternalSize(areas);
    }
  }

  /** A present area lies in the image where its header byte says. */
  lemma AreaInImage(areas: seq<seq<byte>>, i: nat)
    requires |areas| == 5 && i < 5 && Aligned(areas) && Addressable(areas) && areas[i] != []
    ensures var fru, s := Image(areas), Start(areas, i);
            && OffsetByte(fru, i) * BLOCK == s && s + |areas[i]| <= |fru| && fru[s..s + |areas[i]|] == areas[i]
  {
    ImageHeader(areas);
    HeaderOffset(areas, i);
    FlatSlice(areas, i);
    var fru, s := Image(areas), Start(areas, i);
    assert fru[s..s + |areas[i]|] == fru[8..][s - 8..s - 8 + |areas[i]|];
  }

  /** The size computed for area `i` is the size it was assembled with. */
  predicate SizeKnown(areas: seq<seq<byte>>, i: nat)
    requires |areas| == 5 && i < 5
  {
    && (i == 0 ==> InternalEnds(areas))
    && (1 <= i < 4 && areas[i] != [] ==> |areas[i]| >= 2 && areas[i][1] * BLOCK == |areas[i]|)
  }

  lemma AssembledInfo(areas: seq<seq<byte>>, i: nat)
    requires |areas| == 5 && 1 <= i < 4 && Aligned(areas) && Addressable(areas) && areas[i] != []
    ensures AreaBytes(Image(areas), i) == Some(areas[i]) <==> SizeKnown(areas, i)
  {
    var fru, s, n := Image(areas), Start(areas, i), |areas[i]|;
    AreaInImage(areas, i);
    assert n >= BLOCK;
    assert fru[s + 1] == fru[s..s + n][1] == areas[i][1];
  }

  lemma AssembledArea(areas: seq<seq<byte>>, i: nat)
    requires |areas| == 5 && i < 5 && Aligned(areas) && Addressable(areas)
    ensures AreaBytes(Image(areas), i) == Some(areas[i]) <==> SizeKnown(areas, i)
  {
    ImageHeader(areas);
    if areas[i] == [] {
      HeaderOffset(areas, i);
    } else if 1 <= i < 4 {
      AssembledInfo(areas, i);
    } else {
      AreaInImage(areas, i);
      if i == 0 {
        InternalSize(areas);
      } else {
        StartsGrow(areas, 4, 5);
      }
    }
  }

  lemma AllAreas(fru: seq<byte>, areas: seq<seq<byte>>)
    requires HEADER <= |fru| && |areas| == 5
    ensures Disassembled(fru) == Some(areas) <==> forall i :: 0 <= i < 5 ==> AreaBytes(fru, i) == Some(areas[i])
  {
    var d := Disassembled(fru);
    if forall i :: 0 <= i < 5 ==> AreaBytes(fru, i) == Some(areas[i]) {
      assert d.value == areas;
    }
    if d == Some(areas) {
      forall i | 0 <= i < 5
        ensures AreaBytes(fru, i) == Some(areas[i])
      {
        assert d.value[i] == areas[i];
      }
    }
  }

  /** Taking an assembled image apart gives the areas back exactly when their length bytes are
      right and a present Internal area is followed by another one. */
  lemma AssembleDisassemble(areas: seq<seq<byte>>)
    requires |areas| == 5 && Aligned(areas) && Addressable(areas)
    ensures Sane(Image(areas))
    ensures Disassembled(Image(areas)) == Some(areas) <==> Measured(areas) && InternalEnds(areas)
  {
    AssembledSane(areas);
    forall i | 0 <= i < 5
      ensures AreaBytes(Image(areas), i) == Some(areas[i]) <==> SizeKnown(areas, i)
    {
      AssembledArea(areas, i);
    }
    AllAreas(Image(areas), areas);
    assert SizeKnown(areas, 0) <==> InternalEnds(areas);
  }

  /** What `validateHeader` accepts: version 1, a zero pad, distinct offsets, a right checksum. */
  predicate ValidHeader(h: seq<byte>)
    requires HEADER <= |h|
  {
    && h[0] == 1 && h[6] == 0 && h[7] == CalculateChecksum(h[..7])
    && forall i, j :: 1 <= i < j < 6 && h[i] != 0 ==> h[i] != h[j]
  }

  lemma EightBytes(h: seq<byte>)
    requires |h| == 8
    ensures Sum(h) == (h[0] as int) + h[1] + h[2] + h[3] + h[4] + h[5] + h[6] + h[7]
  {
    var a, b, c, d := h[..7], h[..6], h[..5], h[..4];
    assert a[..6] == b && b[..5] == c && c[..4] == d;
    assert Sum(h) == Sum(a) + h[7] && Sum(a) == Sum(b) + h[6] && Sum(b) == Sum(c) + h[5] && Sum(c) == Sum(d) + h[4];
    var e, f, g := h[..3], h[..2], h[..1];
    assert d[..3] == e && e[..2] == f && f[..1] == g && g[..0] == [];
    assert Sum(d) == Sum(e) + h[3] && Sum(e) == Sum(f) + h[2] && Sum(f) == Sum(g) + h[1] && Sum(g) == h[0];
  }

  /** A header is accepted exactly if its eight bytes sum to a multiple of 256, it is of version 1 with a
      zero pad, and no two offsets but zeros are the same. */
  lemma HeaderAccepted(h: seq<byte>)
    requires |h| == 8
    ensures ValidHeader(h) <==>
              && ((h[0] as int) + h[1] + h[2] + h[3] + h[4] + h[5] + h[6] + h[7]) % 256 == 0
              && h[0] == 1 && h[6] == 0
              && forall i, j :: 1 <= i < j <= 5 && h[i] == h[j] ==> h[i] == 0
  {
    EightBytes(h);
    assert h[..7] + [h[7]] == h;
    ChecksumZeroesTheSum(h[..7]);
    if Sum(h) % 256 == 0 {
      ChecksumIsUnique(h[..7], h[7]);
    }
  }

  /** The non-zero offsets in front of header byte `to`. */
  function OffsetsIn(h: seq<byte>, to: nat): set<byte>
    requires HEADER <= |h| && to <= 6
  {
    set k | 1 <= k < to && h[k] != 0 :: h[k]
  }

  method DistinctOffsets(blockData: seq<byte>) returns (ok: bool)
    requires HEADER <= |blockData|
    ensures ok <==> forall i, j :: 1 <= i < j < 6 && blockData[i] != 0 ==> blockData[i] != blockData[j]
  {
    var foundOffsets: set<byte> := {};
    var i := 1;
    while i < 6
      invariant 1 <= i <= 6 && foundOffsets == OffsetsIn(blockData, i)
      invariant forall j, k :: 1 <= j < k < i && blockData[j] != 0 ==> blockData[j] != blockData[k]
    {
      if blockData[i] != 0 {
        if blockData[i] in foundOffsets {
          return false;
        }
        foundOffsets := foundOffsets + {blockData[i]};
      }
      i := i + 1;
    }
    ok := true;
  }

  method HeaderSum(blockData: seq<byte>) returns (sum: nat)
    requires HEADER <= |blockData|
    ensures sum == Sum(blockData[..7])
  {
    sum := 0;
    var j := 0;
    while j < 7
      invariant j <= 7 && sum == Sum(blockData[..j])
    {
      assert blockData[..j + 1][..j] == blockData[..j];
      sum := sum + blockData[j];
      j := j + 1;
    }
  }

  lemma {:induction false} NegatedSum(sum: nat)
    ensures (256 - sum) % 256 == (256 - sum % 256) % 256
  {
    if sum >= 256 {
      NegatedSum(sum - 256);
    }
  }

  method ValidateHeader(blockData: seq<byte>) returns (ok: bool)
    requires HEADER <= |blockData|
    ensures ok <==> ValidHeader(blockData)
  {
    if blockData[0] != 1 || blockData[6] != 0 {
      return false;
    }
    var distinct := DistinctOffsets(blockData);
    if !distinct {
      return false;
    }
    var sum: int := HeaderSum(blockData);
    NegatedSum(sum);
    ok := (256 - sum) % 256 == blockData[7];
  }

  /** The header of an assembled image is valid, and its offsets are in the order of section 17. */
  lemma AssembledHeaderValid(areas: seq<seq<byte>>)
    requires |areas| == 5 && Aligned(areas) && Addressable(areas)
    ensures ValidHeader(Image(areas))
    ensures forall i, j :: 0 <= i < j < 5 && areas[i] != [] && areas[j] != [] ==>
              OffsetByte(Image(areas), i) < OffsetByte(Image(areas), j)
  {
    var fru := Image(areas);
    ImageHeader(areas);
    forall i, j | 0 <= i < j < 5 && areas[i] != []
      ensures OffsetByte(fru, i) != 0 && (areas[j] != [] ==> OffsetByte(fru, i) < OffsetByte(fru, j))
              && (areas[j] == [] ==> OffsetByte(fru, j) == 0)
    {
      HeaderOffset(areas, i);
      HeaderOffset(areas, j);
      StartsGrow(areas, i, j);
    }
    forall i, j | 1 <= i < j < 6 && fru[i] != 0
      ensures fru[i] != fru[j]
    {
      assert fru[1 + (i - 1)] == HeaderByte(areas, i - 1) && OffsetByte(fru, j - 1) == HeaderByte(areas, j - 1);
    }
  }

  /** No other area starts inside the `len` blocks from area `i`'s offset. */
  predicate Disjoint(fru: seq<byte>, i: nat, len: byte)
    requires HEADER <= |fru| && i < 5
  {
    forall j :: 0 <= j < 5 && j != i && OffsetByte(fru, j) != 0 ==>
      OffsetByte(fru, j) != OffsetByte(fru, i) && !(OffsetByte(fru, i) < OffsetByte(fru, j) < OffsetByte(fru, i) + len)
  }

  /** Block `k` is one of an area's: at least the one it starts with. */
  predicate InBlocks(k: nat, start: nat, len: nat) {
    k == start || start < k < start + len
  }

  /** Block by block: none of the area's is another area's first. */
  lemma DisjointBlocks(fru: seq<byte>, i: nat, len: byte)
    requires HEADER <= |fru| && i < 5
    ensures Disjoint(fru, i, len) <==>
              forall j :: 1 <= j <= 5 && j != i + 1 && fru[j] != 0 ==> !InBlocks(fru[j], fru[i + 1], len)
  {
    assert forall j :: 1 <= j <= 5 ==> fru[j] == OffsetByte(fru, j - 1);
    assert forall j :: 0 <= j < 5 ==> fru[1 + j] == OffsetByte(fru, j);
  }

  method VerifyOffset(fruBytes: seq<byte>, currentArea: nat, len: byte) returns (ok: bool)
    requires currentArea < 5
    ensures ok <==> |fruBytes| > HEADER && Disjoint(fruBytes, currentArea, len)
  {
    if |fruBytes| <= HEADER {
      return false;
    }
    var start, end := OffsetByte(fruBytes, currentArea), OffsetByte(fruBytes, currentArea) + len;
    var area := 0;
    while area < 5
      invariant area <= 5
      invariant forall j :: 0 <= j < area && j != currentArea && OffsetByte(fruBytes, j) != 0 ==>
        OffsetByte(fruBytes, j) != start && !(start < OffsetByte(fruBytes, j) < end)
    {
      var areaOffset := OffsetByte(fruBytes, area);
      if area != currentArea && areaOffset != 0 && (areaOffset == start || (start < areaOffset < end)) {
        return false;
      }
      area := area + 1;
    }
    ok := true;
  }

  /** In an assembled image no area starts inside another info area. */
  lemma AssembledDisjoint(areas: seq<seq<byte>>, i: nat)
    requires |areas| == 5 && Aligned(areas) && Addressable(areas) && Measured(areas)
    requires 1 <= i < 4 && areas[i] != []
    ensures Disjoint(Image(areas), i, areas[i][1])
  {
    var fru := Image(areas);
    ImageHeader(areas);
    HeaderOffset(areas, i);
    forall j | 0 <= j < 5 && j != i && OffsetByte(fru, j) != 0
      ensures OffsetByte(fru, j) != OffsetByte(fru, i)
              && !(OffsetByte(fru, i) < OffsetByte(fru, j) < OffsetByte(fru, i) + areas[i][1])
    {
      assert OffsetByte(fru, j) == HeaderByte(areas, j);
      HeaderOffset(areas, j);
      if i < j {
        StartsGrow(areas, i, j);
      } else {
        StartsGrow(areas, j, i);
      }
    }
  }
}
