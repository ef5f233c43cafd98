/** `updateAddProperty`: edit one field of a whole image. What it writes is what decoding the new
    image reads back. */
module FruUpdate {
  import opened Bytes
  import opened FruFields
  import opened FruNames
  import opened FruEdit
  import opened FruImage

  /** A fresh area before it is sealed: version 1, a zero header of `h` bytes, `n` empty fields. */
  function Blank(h: nat, n: nat): seq<byte>
    requires h >= 2
  {
    [1] + seq(h - 1, _ => 0) + Encode(Pad([], n)) + [END_OF_FIELDS, 0]
  }

  lemma {:induction false} EmptyFieldBytes(n: nat)
    ensures Encode(Pad([], n)) == seq(n, _ => 0xC0)
  {
    if n > 0 {
      EmptyFieldBytes(n - 1);
      assert Pad([], n) == Pad([], n - 1) + [EMPTY_FIELD];
      EncodeConcat(Pad([], n - 1), [EMPTY_FIELD]);
      EncodeOne(EMPTY_FIELD);
      assert FieldBytes(EMPTY_FIELD) == [0xC0];
    }
  }

  lemma BlankSpells(h: nat, n: nat)
    requires h >= 2
    ensures Spells(Blank(h, n), h, Pad([], n)) && |Encode(Pad([], n))| == n
    ensures |Blank(h, n)| == h + n + 2 && EndMarker(Blank(h, n)) == Some(h + n)
    ensures Blank(h, n)[0] == 1 && forall i :: 1 <= i < h ==> Blank(h, n)[i] == 0
  {
    var front, mid := [1] + seq(h - 1, _ => 0), Encode(Pad([], n));
    EmptyFieldBytes(n);
    CutPieces(front, mid, [END_OF_FIELDS, 0]);
    HasMarker(Blank(h, n), h + n);
    assert forall i :: 0 <= i < h ==> Blank(h, n)[i] == front[i];
  }

  /** The area `createDummyArea` makes. */
  function DummyArea(a: Area): seq<byte>
    requires InfoArea(a)
  {
    BlankSpells(FirstField(a), FieldCount(a));
    Sealed(Blank(FirstField(a), FieldCount(a)))
  }

  lemma SealedBlank(h: nat, n: nat)
    requires 2 <= h && h + n < 254 * BLOCK
    ensures Spells(Blank(h, n), h, Pad([], n)) && EndMarker(Blank(h, n)).Some?
    ensures var d := Sealed(Blank(h, n));
            && Closed(d, h) && Fields(Body(d)[h..]) == Pad([], n) && Blocked(d)
            && d[1] * BLOCK == |d| && d[0] == 1 && forall i :: 2 <= i < h ==> d[i] == 0
  {
    BlankSpells(h, n);
    SealedSpells(Blank(h, n), h, Pad([], n));
    LengthByte(|Sealed(Blank(h, n))|);
  }

  /** A fresh area meets the invariant, is English, and holds one empty field per listed name. */
  lemma DummyAreaFields(a: Area)
    requires InfoArea(a)
    ensures AreaInvariant(a, DummyArea(a)) && FieldsOf(a, DummyArea(a)) == Pad([], FieldCount(a))
    ensures DummyArea(a)[0] == 1 && |DummyArea(a)| >= 8
    ensures forall i :: 2 <= i < FirstField(a) ==> DummyArea(a)[i] == 0
  {
    SealedBlank(FirstField(a), FieldCount(a));
  }

  method PushEmptyFields(head: seq<byte>, n: nat) returns (areaData: seq<byte>)
    ensures areaData == head + seq(n, _ => 0xC0)
  {
    areaData := head;
    var i := 0;
    while i < n
      invariant i <= n && areaData == head + seq(i, _ => 0xC0)
    {
      areaData := areaData + [0xC0];
      i := i + 1;
    }
  }

  /** The part of `createDummyArea` behind the header. Its block count leaves room for the checksum
      because no header and field count add up to a multiple of eight. */
  method FillDummy(head: seq<byte>, n: nat) returns (areaData: seq<byte>)
    requires |head| >= 2 && head == [1] + seq(|head| - 1, _ => 0)
    requires (|head| + n + 1) % BLOCK != 0 && |head| + n < 254 * BLOCK
    ensures EndMarker(Blank(|head|, n)).Some? && areaData == Sealed(Blank(|head|, n))
  {
    areaData := PushEmptyFields(head, n);
    areaData := areaData + [END_OF_FIELDS];
    BlankBytes(areaData, |head|, n);
    SealUnpadded(areaData);
    var numOfBlocks := (|areaData| + BLOCK - 1) / BLOCK;
    var ok;
    ok, areaData := UpdateAreaChecksum(Resize(areaData, numOfBlocks * BLOCK)[1 := numOfBlocks]);
  }

  lemma SealUnpadded(s: seq<byte>)
    requires |s| % BLOCK != 0 && |s| < 255 * BLOCK && s[|s| - 1] == END_OF_FIELDS
    ensures EndMarker(s + [0]) == Some(|s| - 1)
    ensures var blocks := (|s| + BLOCK - 1) / BLOCK;
            0 < blocks < 256 && WithChecksum(Resize(s, blocks * BLOCK)[1 := blocks]) == Sealed(s + [0])
  {
    HasMarker(s + [0], |s| - 1);
    ResizeZero(s, GetBlockCount(|s|) * BLOCK);
  }

  lemma BlankBytes(s: seq<byte>, h: nat, n: nat)
    requires h >= 2 && s == [1] + seq(h - 1, _ => 0) + seq(n, _ => 0xC0) + [END_OF_FIELDS]
    ensures Blank(h, n) == s + [0]
  {
    EmptyFieldBytes(n);
  }

  method CreateDummyArea(a: Area) returns (ok: bool, areaData: seq<byte>)
    ensures ok <==> InfoArea(a)
    ensures ok ==> areaData == DummyArea(a)
  {
    areaData := [1, 0];
    match a {
      case Chassis => areaData := areaData + [0];
      case Board => areaData := areaData + [0, 0, 0, 0];
      case Product => areaData := areaData + [0];
      case _ => return false, areaData;
    }
    assert areaData == [1] + seq(FirstField(a) - 1, _ => 0);
    areaData := FillDummy(areaData, FieldCount(a));
    ok := true;
  }

  /** The area an edit starts from: the one in the image, or a fresh one. */
  function BaseArea(a: Area, areas: seq<seq<byte>>): seq<byte>
    requires |areas| == 5
  {
    if areas[Index(a)] == [] && InfoArea(a) then DummyArea(a) else areas[Index(a)]
  }

  /** An edit of area `a` goes through: the area is present or may be created, the field can be
      set, and the areas can be assembled again. */
  predicate AreasUpdatable(resize: bool, a: Area, areas: seq<seq<byte>>, name: string, value: seq<byte>)
    requires |areas| == 5
  {
    && (areas[Index(a)] == [] ==> resize && InfoArea(a))
    && Settable(resize, a, BaseArea(a, areas), name, value)
    && Aligned(areas[Index(a) := []])
  }

  /** When `updateAddProperty` succeeds. */
  predicate Updatable(resize: bool, fru: seq<byte>, name: string, value: seq<byte>)
  {
    && LegalLength(value) && AreaOf(name).Some? && Disassembled(fru).Some?
    && AreasUpdatable(resize, AreaOf(name).value, Disassembled(fru).value, name, value)
  }

  /** The five areas after the edit. */
  function EditedAreas(a: Area, areas: seq<seq<byte>>, name: string, value: seq<byte>): (r: seq<seq<byte>>)
    requires |areas| == 5 && Settable(true, a, BaseArea(a, areas), name, value)
    ensures |r| == 5
  {
    areas[Index(a) := Edited(a, BaseArea(a, areas), name, value)]
  }

  function UpdatedAreas(fru: seq<byte>, name: string, value: seq<byte>): (r: seq<seq<byte>>)
    requires Updatable(true, fru, name, value)
    ensures |r| == 5
  {
    EditedAreas(AreaOf(name).value, Disassembled(fru).value, name, value)
  }

  method EditAreas(resize: bool, a: Area, areasData: seq<seq<byte>>, name: string, value: seq<byte>)
    returns (ok: bool, result: seq<seq<byte>>)
    requires |areasData| == 5
    ensures |result| == 5
    ensures ok <==> && (areasData[Index(a)] == [] ==> resize && InfoArea(a))
                    && Settable(resize, a, BaseArea(a, areasData), name, value)
    ensures ok ==> result == EditedAreas(a, areasData, name, value)
  {
    var areaData := areasData[Index(a)];
    result := areasData;
    if areaData == [] {
      if !resize {
        return false, areasData;
      }
      ok, areaData := CreateDummyArea(a);
      if !ok {
        return false, areasData;
      }
    }
    ok, areaData := SetField(resize, a, areaData, name, value);
    result := areasData[Index(a) := areaData];
  }

  lemma AlignedUpdate(areas: seq<seq<byte>>, i: nat, b: seq<byte>)
    requires i < |areas| && |b| % BLOCK == 0
    ensures Aligned(areas[i := b]) <==> Aligned(areas[i := []])
  {
    var s, t := areas[i := b], areas[i := []];
    assert forall j :: 0 <= j < |areas| && j != i ==> s[j] == t[j];
  }

  method UpdateAddProperty(resize: bool, value: seq<byte>, name: string, fruData: seq<byte>)
    returns (ok: bool, result: seq<byte>)
    requires Sane(fruData)
    ensures ok <==> Updatable(resize, fruData, name, value)
    ensures result == if ok then Image(UpdatedAreas(fruData, name, value)) else fruData
  {
    if |value| == 1 || |value| > 63 || fruData == [] {
      return false, fruData;
    }
    var area := AreaOf(name);
    if area.None? {
      return false, fruData;
    }
    var areasData;
    ok, areasData := DisassembleFruData(fruData);
    if !ok {
      return false, fruData;
    }
    ghost var before := areasData;
    ok, areasData := EditAreas(resize, area.value, areasData, name, value);
    if !ok {
      return false, fruData;
    }
    AlignedUpdate(before, Index(area.value), areasData[Index(area.value)]);
    ok, result := AssembleFruData(areasData, fruData);
  }
}
