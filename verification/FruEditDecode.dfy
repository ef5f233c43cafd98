/** Editing an image and decoding it again: the edited field reads back as the written value, and
    everything else reads as before. */
module FruEditDecode {
  import opened Bytes
  import opened FruFields
  import opened FruNames
  import opened FruEdit
  import opened FruImage
  import opened FruDecode
  import opened FruFormat
  import opened FruUpdate

  function Get(r: Report, key: Key): Option<Value> {
    if key in r then Some(r[key]) else None
  }

  function FieldsReport(text: Field -> seq<byte>, a: Area, fs: seq<Field>, i: nat): Report {
    if fs == [] then map[] else EntryReport(a, i, text(fs[0])) + FieldsReport(text, a, fs[1..], i + 1)
  }

  /** What field `f` at index `i` reports under `key`. */
  function FieldEntry(a: Area, i: nat, value: seq<byte>, key: Key): Option<Value> {
    if key == Entry(a, i) then Some(Text(value))
    else if key == MacOf(a, i) && FieldCount(a) <= i && MAC_PREFIX <= value then Some(Text(value[5..]))
    else None
  }

  /** What an area whose list is `fs` reports under `key`. */
  function ListEntry(text: Field -> seq<byte>, a: Area, fs: seq<Field>, key: Key): Option<Value> {
    if (key.Entry? || key.MacOf?) && key.index < |fs| then FieldEntry(a, key.index, text(fs[key.index]), key) else None
  }

  lemma FieldsReportCons(text: Field -> seq<byte>, a: Area, f: Field, fs: seq<Field>, i: nat)
    ensures FieldsReport(text, a, [f] + fs, i) == EntryReport(a, i, text(f)) + FieldsReport(text, a, fs, i + 1)
  {
    assert ([f] + fs)[1..] == fs;
  }

  /** A walk that reaches the marker in an English area reports exactly its list. */
  lemma {:induction false} ScanList(text: Field -> seq<byte>, a: Area, s: seq<byte>, i: nat)
    requires Terminated(s)
    ensures ScanFields(text, a, s, i, true).report == FieldsReport(text, a, Fields(s), i)
    decreases |s|
  {
    if FieldFirst(s) {
      ScanList(text, a, AfterField(s), i + 1);
      FieldsReportCons(text, a, FrontField(s), Fields(AfterField(s)), i);
    }
  }

  lemma {:induction false} ScanListCode(text: Field -> seq<byte>, a: Area, s: seq<byte>, i: nat)
    requires Terminated(s)
    ensures ScanFields(text, a, s, i, true).code == if i + |Fields(s)| < FieldCount(a) then ResWarn else ResOk
    decreases |s|
  {
    if FieldFirst(s) {
      ScanListCode(text, a, AfterField(s), i + 1);
      assert |Fields(s)| == 1 + |Fields(AfterField(s))|;
    }
  }

  lemma EntryReportEntry(a: Area, i: nat, value: seq<byte>, key: Key)
    ensures Get(EntryReport(a, i, value), key) == FieldEntry(a, i, value, key)
  {
  }

  lemma GetMerged(r: Report, t: Report, key: Key)
    ensures Get(r + t, key) == if Get(t, key).Some? then Get(t, key) else Get(r, key)
  {
  }

  /** The list's report, entry by entry, when `d` fields came before. */
  lemma {:induction false} FieldsReportEntries(text: Field -> seq<byte>, a: Area, d: nat, fs: seq<Field>, key: Key)
    ensures Get(FieldsReport(text, a, fs, d), key) ==
            if (key.Entry? || key.MacOf?) && d <= key.index < d + |fs|
            then FieldEntry(a, key.index, text(fs[key.index - d]), key) else None
    decreases |fs|
  {
    if fs != [] {
      FieldsReportEntries(text, a, d + 1, fs[1..], key);
      EntryReportEntry(a, d, text(fs[0]), key);
      GetMerged(EntryReport(a, d, text(fs[0])), FieldsReport(text, a, fs[1..], d + 1), key);
    }
  }

  /** The area a report entry comes from. */
  function KeyArea(key: Key): Option<Area> {
    match key
    case ChassisType => Some(Chassis)
    case LanguageCode(a) => Some(a)
    case ManufactureDate => Some(Board)
    case Entry(a, _) => Some(a)
    case MacOf(a, _) => Some(a)
    case _ => None
  }

  lemma {:induction false} ScanKeys(text: Field -> seq<byte>, a: Area, s: seq<byte>, i: nat, eng: bool, key: Key)
    ensures key in ScanFields(text, a, s, i, eng).report ==> KeyArea(key) == Some(a) && (key.Entry? || key.MacOf?)
    decreases |s|
  {
    if Decodable(s, eng) {
      ScanKeys(text, a, AfterField(s), i + 1, eng, key);
    }
  }

  lemma PartKeys(i: nat, b: seq<byte>, key: Key)
    requires 1 <= i < 4 && (b != [] ==> |b| >= 8)
    ensures key in PartReport(i, b) ==> KeyArea(key) == Some(AreaIndex(i))
  {
    if b != [] {
      var a := AreaIndex(i);
      ScanKeys(TextOf, a, Body(b)[FirstField(a)..], 0, English(a, b), key);
    }
  }

  /** What five areas report under `key`, area by area. */
  function AreasEntry(areas: seq<seq<byte>>, version: byte, key: Key): Option<Value>
    requires |areas| == 5
    requires forall i :: 1 <= i < 4 && areas[i] != [] ==> |areas[i]| >= 8
  {
    match KeyArea(key)
    case Some(a) => if InfoArea(a) then Get(PartReport(Index(a), areas[Index(a)]), key) else None
    case None => if key.FormatVersion? then Some(Number(version)) else Get(UuidReport(areas[4]), key)
  }

  lemma AreasReportEntry(areas: seq<seq<byte>>, version: byte, key: Key)
    requires |areas| == 5
    requires forall i :: 1 <= i < 4 && areas[i] != [] ==> |areas[i]| >= 8
    requires AreasCode(areas, 4) != ResErr
    ensures Get(AreasReport(areas, version, 4) + UuidReport(areas[4]), key) == AreasEntry(areas, version, key)
  {
    PartKeys(1, areas[1], key);
    PartKeys(2, areas[2], key);
    PartKeys(3, areas[3], key);
    ThreeParts(areas, version);
    MergedByArea(version, PartReport(1, areas[1]), PartReport(2, areas[2]), PartReport(3, areas[3]),
      UuidReport(areas[4]), key);
    EntryByArea(areas, version, key);
  }

  lemma EntryByArea(areas: seq<seq<byte>>, version: byte, key: Key)
    requires |areas| == 5
    requires forall i :: 1 <= i < 4 && areas[i] != [] ==> |areas[i]| >= 8
    ensures AreasEntry(areas, version, key) ==
            match KeyArea(key)
            case Some(Chassis) => Get(PartReport(1, areas[1]), key)
            case Some(Board) => Get(PartReport(2, areas[2]), key)
            case Some(Product) => Get(PartReport(3, areas[3]), key)
            case Some(_) => None
            case None => if key.FormatVersion? then Some(Number(version)) else Get(UuidReport(areas[4]), key)
  {
  }

  lemma MergedByArea(version: byte, r1: Report, r2: Report, r3: Report, r4: Report, key: Key)
    requires key in r1 ==> KeyArea(key) == Some(Chassis)
    requires key in r2 ==> KeyArea(key) == Some(Board)
    requires key in r3 ==> KeyArea(key) == Some(Product)
    requires key in r4 ==> key == MultirecordUuid
    ensures Get(map[FormatVersion := Number(version)] + r1 + r2 + r3 + r4, key) ==
            match KeyArea(key)
            case Some(Chassis) => Get(r1, key)
            case Some(Board) => Get(r2, key)
            case Some(Product) => Get(r3, key)
            case Some(_) => None
            case None => if key.FormatVersion? then Some(Number(version)) else Get(r4, key)
  {
    MergedFive(map[FormatVersion := Number(version)], r1, r2, r3, r4, key);
  }

  /** The last of five reports that has the key. */
  lemma MergedFive(r0: Report, r1: Report, r2: Report, r3: Report, r4: Report, key: Key)
    ensures Get(r0 + r1 + r2 + r3 + r4, key) ==
            if key in r4 then Get(r4, key) else if key in r3 then Get(r3, key) else if key in r2 then Get(r2, key)
            else if key in r1 then Get(r1, key) else Get(r0, key)
  {
    GetMerged(r0, r1, key);
    GetMerged(r0 + r1, r2, key);
    GetMerged(r0 + r1 + r2, r3, key);
    GetMerged(r0 + r1 + r2 + r3, r4, key);
  }

  lemma ThreeParts(areas: seq<seq<byte>>, version: byte)
    requires |areas| == 5
    requires forall i :: 1 <= i < 4 && areas[i] != [] ==> |areas[i]| >= 8
    requires AreasCode(areas, 4) != ResErr
    ensures AreasReport(areas, version, 4) ==
            map[FormatVersion := Number(version)] + PartReport(1, areas[1]) + PartReport(2, areas[2])
              + PartReport(3, areas[3])
  {
    assert AreasReport(areas, version, 2) == AreasReport(areas, version, 1) + PartReport(1, areas[1]);
    assert AreasReport(areas, version, 3) == AreasReport(areas, version, 2) + PartReport(2, areas[2]);
  }

  /** Decoding an English, well-formed area is never an error. */
  lemma PartCodeOfList(a: Area, b: seq<byte>)
    requires WellFormed(a, b) && |b| >= 8 && English(a, b)
    ensures PartCode(Index(a), b) != ResErr
  {
    ScanListCode(TextOf, a, Body(b)[FirstField(a)..], 0);
  }

  lemma PartReportOfList(a: Area, b: seq<byte>)
    requires WellFormed(a, b) && |b| >= 8 && English(a, b)
    ensures PartReport(Index(a), b) == HeaderReport(a, b) + FieldsReport(TextOf, a, FieldsOf(a, b), 0)
  {
    ScanList(TextOf, a, Body(b)[FirstField(a)..], 0);
  }

  lemma HeaderKeys(a: Area, b: seq<byte>, key: Key)
    requires |b| >= 8 && (key.Entry? || key.MacOf?)
    ensures key !in HeaderReport(a, b)
  {
  }

  lemma HeaderAndList(header: Report, text: Field -> seq<byte>, a: Area, fs: seq<Field>, key: Key)
    requires key.Entry? || key.MacOf? ==> key !in header
    ensures Get(header + FieldsReport(text, a, fs, 0), key) ==
            if key.Entry? || key.MacOf? then ListEntry(text, a, fs, key) else Get(header, key)
  {
    FieldsReportEntries(text, a, 0, fs, key);
    GetMerged(header, FieldsReport(text, a, fs, 0), key);
  }

  /** It reports its header and its list. */
  lemma PartOfList(a: Area, b: seq<byte>, key: Key)
    requires WellFormed(a, b) && |b| >= 8 && English(a, b)
    ensures Get(PartReport(Index(a), b), key) ==
            if key.Entry? || key.MacOf? then ListEntry(TextOf, a, FieldsOf(a, b), key) else Get(HeaderReport(a, b), key)
  {
    PartReportOfList(a, b);
    if key.Entry? || key.MacOf? {
      HeaderKeys(a, b, key);
    }
    HeaderAndList(HeaderReport(a, b), TextOf, a, FieldsOf(a, b), key);
  }

  /** The MultiRecord area starts behind all others. */
  predicate MultirecordLast(fru: seq<byte>)
    requires |fru| >= HEADER
  {
    OffsetByte(fru, 4) != 0 ==> forall i :: 0 <= i < 4 ==> OffsetByte(fru, i) < OffsetByte(fru, 4)
  }

  lemma UuidOfOrdered(fru: seq<byte>)
    requires |fru| > HEADER && Disassembled(fru).Some? && MultirecordLast(fru)
    ensures UuidReport(UuidArea(fru)) == UuidReport(Disassembled(fru).value[4])
  {
    var offset := OffsetByte(fru, 4) * BLOCK;
    assert AreaBytes(fru, 4) == Some(Disassembled(fru).value[4]);
    if offset != 0 {
      assert Disassembled(fru).value[4] == fru[offset..|fru|] == fru[offset..];
      if offset < |fru| {
        assert Disjoint(fru, 4, fru[offset]);
      }
    }
  }

  /** A parseable image reports what its areas, taken apart, report. */
  lemma ParseableEntry(fru: seq<byte>, key: Key)
    requires FormatCode(fru) != ResErr && Disassembled(fru).Some?
    ensures |fru| > HEADER
    ensures forall i :: 1 <= i < 4 ==>
              var b := Disassembled(fru).value[i]; b != [] ==> |b| >= 8 && b[0] == 1 && b[1] * BLOCK == |b|
    ensures AreasCode(Disassembled(fru).value, 4) != ResErr
    ensures MultirecordLast(fru) ==> Get(FormatReport(fru), key) == AreasEntry(Disassembled(fru).value, fru[0], key)
  {
    var areas := Disassembled(fru).value;
    forall i | 1 <= i < 4
      ensures Part(fru, i) == Some(areas[i])
      ensures areas[i] != [] ==> |areas[i]| >= 8 && areas[i][0] == 1 && areas[i][1] * BLOCK == |areas[i]|
    {
      PartPresent(fru, i);
      PartsOfParseable(fru, i);
    }
    FormatByAreas(fru, areas, 4);
    if MultirecordLast(fru) {
      UuidOfOrdered(fru);
      AreasReportEntry(areas, fru[0], key);
    }
  }

  /** What an edit needs of the area it works on: well formed, and in English. */
  predicate EditableArea(a: Area, areas: seq<seq<byte>>)
    requires |areas| == 5
  {
    areas[Index(a)] != [] ==> |areas[Index(a)]| >= 8 && WellFormed(a, areas[Index(a)]) && English(a, areas[Index(a)])
  }

  /** The new image fits the byte-wide block counts: at most 255 blocks in the edited area, and no
      area starting behind block 255. */
  predicate Fits(a: Area, areas: seq<seq<byte>>)
    requires |areas| == 5
  {
    |areas[Index(a)]| <= 255 * BLOCK && Addressable(areas)
  }

  /** The area an edit starts from is always fit for it. */
  lemma BaseIsEditable(a: Area, areas: seq<seq<byte>>)
    requires |areas| == 5 && InfoArea(a) && EditableArea(a, areas)
    requires areas[Index(a)] != [] ==> areas[Index(a)][0] == 1
    ensures var b := BaseArea(a, areas);
            |b| >= 8 && WellFormed(a, b) && English(a, b) && b[0] == 1
  {
    DummyAreaFields(a);
  }

  lemma HeaderKept(a: Area, b: seq<byte>, out: seq<byte>)
    requires |b| >= 8 && |out| >= 8 && forall i :: 0 <= i < FirstField(a) && i != 1 ==> out[i] == b[i]
    ensures HeaderReport(a, out) == HeaderReport(a, b) && out[0] == b[0]
    ensures InfoArea(a) && English(a, b) ==> English(a, out)
  {
  }

  /** What an edited area reports under `key`: the header as before, the list updated. */
  function AreaAfter(a: Area, b: seq<byte>, k: nat, value: seq<byte>, key: Key): Option<Value>
    requires |b| >= 8 && WellFormed(a, b) && LegalLength(value)
  {
    if key.Entry? || key.MacOf? then ListEntry(TextOf, a, Update(FieldsOf(a, b), k, ValueField(value)), key)
    else Get(HeaderReport(a, b), key)
  }

  /** What the new image reports under `key`, given what the old image reported. */
  function EntryAfter(a: Area, b: seq<byte>, k: nat, value: seq<byte>, key: Key, before: Option<Value>): Option<Value>
    requires |b| >= 8 && WellFormed(a, b) && LegalLength(value)
  {
    if KeyArea(key) == Some(a) then AreaAfter(a, b, k, value, key)
    else if key.FormatVersion? then Some(Number(1))
    else before
  }

  lemma EditedPart(a: Area, b: seq<byte>, name: string, value: seq<byte>, key: Key)
    requires |b| >= 8 && WellFormed(a, b) && English(a, b) && Settable(true, a, b, name, value)
    ensures TargetIndex(a, name).Some?
    ensures var out, k := Edited(a, b, name, value), TargetIndex(a, name).value;
            && PartCode(Index(a), out) != ResErr && out[0] == b[0]
            && (|out| <= 255 * BLOCK ==> out[1] * BLOCK == |out|)
            && Get(PartReport(Index(a), out), key) == AreaAfter(a, b, k, value, key)
  {
    EditIsListUpdate(a, b, name, value);
    var out := Edited(a, b, name, value);
    LengthByte(|out|);
    HeaderKept(a, b, out);
    PartCodeOfList(a, out);
    PartOfList(a, out, key);
  }

  predicate WholeAreas(areas: seq<seq<byte>>) {
    |areas| == 5 && forall i :: 1 <= i < 4 && areas[i] != [] ==> |areas[i]| >= 8
  }

  lemma CodeWithPart(areas: seq<seq<byte>>, other: seq<seq<byte>>, i: nat)
    requires WholeAreas(areas) && WholeAreas(other) && 1 <= i < 4
    requires AreasCode(areas, 4) != ResErr && PartCode(i, other[i]) != ResErr
    requires forall j :: 1 <= j < 4 && j != i ==> other[j] == areas[j]
    ensures AreasCode(other, 4) != ResErr
  {
    assert AreasCode(areas, 3) != ResErr && AreasCode(areas, 2) != ResErr;
    assert AreasCode(other, 2) == Worse(AreasCode(other, 1), PartCode(1, other[1]));
    assert AreasCode(other, 3) == Worse(AreasCode(other, 2), PartCode(2, other[2]));
  }

  /** Replacing one area changes that area's entries and the format version, nothing else. */
  lemma DecodeReplaced(areas: seq<seq<byte>>, version: byte, a: Area, out: seq<byte>, key: Key)
    requires WholeAreas(areas) && InfoArea(a) && |out| >= 8
    requires AreasCode(areas, 4) != ResErr && PartCode(Index(a), out) != ResErr
    requires Parseable(areas[Index(a) := out])
    ensures var fru, last := Image(areas[Index(a) := out]), LastIsLong(areas[Index(a) := out]);
            && (FormatCode(fru) != ResErr <==> last)
            && (last ==>
                  && |fru| > HEADER
                  && Get(FormatReport(fru), key) ==
                     if KeyArea(key) == Some(a) then Get(PartReport(Index(a), out), key)
                     else if key.FormatVersion? then Some(Number(1))
                     else AreasEntry(areas, version, key))
  {
    var other := areas[Index(a) := out];
    CodeWithPart(areas, other, Index(a));
    ImageHeader(other);
    AfterLast(other, Index(a));
    FormatAssembled(other);
    AreasReportEntry(other, 1, key);
  }

  lemma EditedParseable(fru: seq<byte>, a: Area, out: seq<byte>)
    requires FormatCode(fru) != ResErr && Disassembled(fru).Some? && InfoArea(a)
    requires |out| >= 8 && |out| % BLOCK == 0 && out[0] == 1 && out[1] * BLOCK == |out|
    requires Aligned(Disassembled(fru).value[Index(a) := []]) && Addressable(Disassembled(fru).value[Index(a) := out])
    ensures Parseable(Disassembled(fru).value[Index(a) := out])
  {
    AlignedUpdate(Disassembled(fru).value, Index(a), out);
    ParseableEntry(fru, FormatVersion);
  }

  /** Slot `m` is in use once slot `i` is. */
  predicate Used(areas: seq<seq<byte>>, i: nat, m: nat)
    requires m < |areas|
  {
    areas[m] != [] || m == i
  }

  /** Slot `j` is then the last one in use. */
  predicate LastOnce(areas: seq<seq<byte>>, i: nat, j: nat) {
    j < |areas| && Used(areas, i, j) && forall m :: j < m < |areas| ==> !Used(areas, i, m)
  }

  /** The edited bytes need more than one block: their end marker does not fit in front of the first
      block's checksum. */
  predicate OutgrowsBlock(b: seq<byte>, h: nat, k: nat, value: seq<byte>)
    requires Replaceable(true, b, h, k, value)
  {
    EndMarker(Spliced(b, h, k, value)).value >= BLOCK - 1
  }

  /** Before an edit of area `a`: the image will not end in an info area of a single block. */
  predicate EndsLong(a: Area, areas: seq<seq<byte>>, name: string, value: seq<byte>)
    requires |areas| == 5 && Settable(true, a, BaseArea(a, areas), name, value)
  {
    forall j :: 1 <= j < 4 && LastOnce(areas, Index(a), j) ==>
      if j == Index(a) then
        OutgrowsBlock(BaseArea(a, areas), FirstField(a), Selected(a, BaseArea(a, areas), name).value, value)
      else |areas[j]| > BLOCK
  }

  lemma OutgrowsWhen(b: seq<byte>, h: nat, k: nat, value: seq<byte>)
    requires Replaceable(true, b, h, k, value)
    ensures |Replaced(b, h, k, value)| > BLOCK <==> OutgrowsBlock(b, h, k, value)
  {
  }

  /** The condition on the edited image is one on the image before the edit. */
  lemma LongWhen(a: Area, areas: seq<seq<byte>>, name: string, value: seq<byte>)
    requires |areas| == 5 && InfoArea(a) && Settable(true, a, BaseArea(a, areas), name, value)
    ensures LastIsLong(EditedAreas(a, areas, name, value)) <==> EndsLong(a, areas, name, value)
  {
    var b := BaseArea(a, areas);
    var k := Selected(a, b, name).value;
    OutgrowsWhen(b, FirstField(a), k, value);
    LongByPlace(areas, Index(a), Edited(a, b, name, value), OutgrowsBlock(b, FirstField(a), k, value));
  }

  lemma LongByPlace(areas: seq<seq<byte>>, i: nat, out: seq<byte>, grows: bool)
    requires |areas| == 5 && 1 <= i < 4 && out != [] && (|out| > BLOCK <==> grows)
    ensures LastIsLong(areas[i := out]) <==>
              forall j :: 1 <= j < 4 && LastOnce(areas, i, j) ==> if j == i then grows else |areas[j]| > BLOCK
  {
    var other := areas[i := out];
    assert forall m :: 0 <= m < 5 ==> (other[m] != [] <==> Used(areas, i, m));
    forall j | 0 <= j < 5 ensures LastArea(other, j) <==> LastOnce(areas, i, j) {
    }
  }

  /** An edited Board area never fits one block. */
  lemma BoardOutgrows(b: seq<byte>, k: nat, value: seq<byte>)
    requires Closed(b, 6) && LegalLength(value)
    ensures Replaceable(true, b, 6, k, value) && OutgrowsBlock(b, 6, k, value)
  {
    ClosedIsReplaceable(b, 6, k, value);
    SpliceSpells(b, 6, k, value);
    SpellsLong(Spliced(b, 6, k, value), 6, Update(Fields(Body(b)[6..]), k, ValueField(value)));
  }

  lemma SpellsLong(s: seq<byte>, h: nat, fs: seq<Field>)
    requires Spells(s, h, fs) && fs != []
    ensures EndMarker(s).Some? && EndMarker(s).value > h
  {
    HasMarker(s, h + |Encode(fs)|);
  }

  /** No marker byte between the end marker that starts `rest` and the checksum that ends it. */
  predicate NoStrayMarker(rest: seq<byte>) {
    forall j :: 1 <= j < |rest| - 1 ==> rest[j] != END_OF_FIELDS
  }

  lemma MarkerIsFirst(front: seq<byte>, rest: seq<byte>)
    requires |rest| >= 2 && rest[0] == END_OF_FIELDS && NoStrayMarker(rest)
    ensures EndMarker(front + rest) == Some(|front|)
  {
    var s := front + rest;
    HasMarker(s, |front|);
    assert forall j :: |front| < j < |s| - 1 ==> s[j] == rest[j - |front|];
  }

  /** Without a stray marker byte in the padding, the number of bytes of the new field list decides. */
  lemma OutgrowsByLength(b: seq<byte>, h: nat, k: nat, value: seq<byte>)
    requires Closed(b, h) && LegalLength(value) && NoStrayMarker(Rest(b[h..]))
    ensures Replaceable(true, b, h, k, value)
    ensures OutgrowsBlock(b, h, k, value) <==> h + |Encode(Update(Fields(b[h..]), k, ValueField(value)))| >= BLOCK - 1
  {
    ClosedIsReplaceable(b, h, k, value);
    WholeWalk(b, h);
    MarkerIsFirst(b[..h] + Encode(Update(Fields(b[h..]), k, ValueField(value))), Rest(b[h..]));
  }

  /** Editing then decoding. The new image is parsed without error exactly when, judged before the edit,
      it will not end in an info area of a single block. Then the edited area reports its old list with
      the new value in place, and every other entry is as before, but for the format version, which
      is 1. */
  lemma EditThenDecode(fru: seq<byte>, name: string, value: seq<byte>, key: Key)
    requires FormatCode(fru) != ResErr && |fru| > HEADER && MultirecordLast(fru)
    requires Updatable(true, fru, name, value)
    requires EditableArea(AreaOf(name).value, Disassembled(fru).value)
    requires Fits(AreaOf(name).value, UpdatedAreas(fru, name, value))
    ensures var a, base := AreaOf(name).value, BaseArea(AreaOf(name).value, Disassembled(fru).value);
            var other := UpdatedAreas(fru, name, value);
            && WellFormed(a, base) && |base| >= 8 && TargetIndex(a, name).Some?
            && (FormatCode(Image(other)) != ResErr <==> EndsLong(a, Disassembled(fru).value, name, value))
            && (EndsLong(a, Disassembled(fru).value, name, value) ==>
                  && |Image(other)| > HEADER
                  && Get(FormatReport(Image(other)), key) ==
                     EntryAfter(a, base, TargetIndex(a, name).value, value, key, Get(FormatReport(fru), key)))
  {
    var a, areas := AreaOf(name).value, Disassembled(fru).value;
    var base := BaseArea(a, areas);
    ParseableEntry(fru, key);
    EditOfAreas(fru, a, name, value, key);
    LongWhen(a, areas, name, value);
  }

  /** The edited image's entry, from what is known of the edited area. */
  lemma DecodeEdited(areas: seq<seq<byte>>, version: byte, a: Area, base: seq<byte>, k: nat, value: seq<byte>,
                     out: seq<byte>, key: Key)
    requires WholeAreas(areas) && InfoArea(a) && |out| >= 8
    requires AreasCode(areas, 4) != ResErr && PartCode(Index(a), out) != ResErr
    requires Parseable(areas[Index(a) := out])
    requires |base| >= 8 && WellFormed(a, base) && LegalLength(value)
    requires Get(PartReport(Index(a), out), key) == AreaAfter(a, base, k, value, key)
    ensures var fru, last := Image(areas[Index(a) := out]), LastIsLong(areas[Index(a) := out]);
            && (FormatCode(fru) != ResErr <==> last)
            && (last ==>
                  && |fru| > HEADER
                  && Get(FormatReport(fru), key) == EntryAfter(a, base, k, value, key, AreasEntry(areas, version, key)))
  {
    DecodeReplaced(areas, version, a, out, key);
  }

  lemma EditOfAreas(fru: seq<byte>, a: Area, name: string, value: seq<byte>, key: Key)
    requires FormatCode(fru) != ResErr && |fru| > HEADER && Disassembled(fru).Some?
    requires AreasUpdatable(true, a, Disassembled(fru).value, name, value)
    requires EditableArea(a, Disassembled(fru).value)
    requires Fits(a, EditedAreas(a, Disassembled(fru).value, name, value))
    requires WholeAreas(Disassembled(fru).value) && AreasCode(Disassembled(fru).value, 4) != ResErr
    requires forall i :: 1 <= i < 4 && Disassembled(fru).value[i] != [] ==> Disassembled(fru).value[i][0] == 1
    ensures var areas := Disassembled(fru).value;
            var base, other := BaseArea(a, areas), EditedAreas(a, areas, name, value);
            && InfoArea(a) && WellFormed(a, base) && |base| >= 8 && TargetIndex(a, name).Some?
            && (FormatCode(Image(other)) != ResErr <==> LastIsLong(other))
            && (LastIsLong(other) ==>
                  && |Image(other)| > HEADER
                  && Get(FormatReport(Image(other)), key) ==
                     EntryAfter(a, base, TargetIndex(a, name).value, value, key, AreasEntry(areas, fru[0], key)))
  {
    var areas := Disassembled(fru).value;
    var base := BaseArea(a, areas);
    SelectedIsTarget(a, base, name);
    BaseIsEditable(a, areas);
    EditedPart(a, base, name, value, key);
    var out := Edited(a, base, name, value);
    EditedParseable(fru, a, out);
    DecodeEdited(areas, fru[0], a, base, TargetIndex(a, name).value, value, out, key);
  }

  /** The written value reads back, minus trailing spaces and NULs, and as a MAC entry when it
      spells one in a custom field. */
  lemma EditedEntry(a: Area, b: seq<byte>, k: nat, value: seq<byte>)
    requires |b| >= 8 && WellFormed(a, b) && LegalLength(value)
    ensures AreaAfter(a, b, k, value, Entry(a, k)) == Some(Text(Trim(value)))
    ensures AreaAfter(a, b, k, value, MacOf(a, k)) ==
            if FieldCount(a) <= k && MAC_PREFIX <= Trim(value) then Some(Text(Trim(value)[5..])) else None
  {
    assert TextOf(ValueField(value)) == Trim(value);
  }

  /** On an area that was present, every other entry reads as before, except that the fields the
      edit had to open in front of field `k` now read as empty. */
  lemma OtherEntries(a: Area, b: seq<byte>, k: nat, value: seq<byte>, key: Key)
    requires |b| >= 8 && WellFormed(a, b) && English(a, b) && LegalLength(value)
    requires KeyArea(key) == Some(a) && key != Entry(a, k) && key != MacOf(a, k)
    ensures var before, n := Get(PartReport(Index(a), b), key), |FieldsOf(a, b)|;
            AreaAfter(a, b, k, value, key) == if key.Entry? && n <= key.index < k then Some(Text([])) else before
    ensures key.Entry? && |FieldsOf(a, b)| <= key.index ==> Get(PartReport(Index(a), b), key) == None
  {
    PartOfList(a, b, key);
    assert TextOf(EMPTY_FIELD) == [];
  }

  /** Writing back what is there leaves a one-block area one block long. */
  lemma SameListStaysShort(b: seq<byte>, h: nat, k: nat, value: seq<byte>)
    requires Closed(b, h) && Replaceable(true, b, h, k, value) && |b| == BLOCK
    requires Update(Fields(b[h..]), k, ValueField(value)) == Fields(b[h..])
    ensures |Replaced(b, h, k, value)| == BLOCK
  {
    SpelledBySelf(b, h);
    assert Spliced(b, h, k, value) == b;
    SealedShort(b);
  }

  lemma SealedShort(b: seq<byte>)
    requires |b| == BLOCK && EndMarker(b).Some?
    ensures |Sealed(b)| == BLOCK
  {
  }

  lemma SpelledBySelf(b: seq<byte>, h: nat)
    requires h <= |b|
    ensures b[..h] + Encode(Fields(b[h..])) + Rest(b[h..]) == b
  {
    FieldsThenRest(b[h..]);
    Rejoined(b, h, Encode(Fields(b[h..])), Rest(b[h..]));
  }

  lemma Rejoined(b: seq<byte>, h: nat, x: seq<byte>, y: seq<byte>)
    requires h <= |b| && b[h..] == x + y
    ensures b[..h] + x + y == b
  {
    Assoc(b[..h], x, y);
    assert b == b[..h] + b[h..];
  }

  lemma FreshChassisIsShort()
    ensures |DummyArea(Chassis)| == BLOCK
  {
    BlankSpells(3, 2);
  }

  lemma EmptyUpdate()
    ensures Update(Pad([], 2), 0, ValueField([])) == Pad([], 2)
  {
    assert ValueField([]) == EMPTY_FIELD;
  }

  /** Emptying the first field of a fresh chassis area leaves it one block long. */
  lemma EmptyFirstField(b: seq<byte>, name: string)
    requires WellFormed(Chassis, b) && |b| == BLOCK && FieldsOf(Chassis, b) == Pad([], 2)
    requires TargetIndex(Chassis, name) == Some(0)
    ensures Settable(true, Chassis, b, name, []) && |Edited(Chassis, b, name, [])| == BLOCK
  {
    FieldCounts(Chassis);
    SettableWhen(Chassis, b, name, []);
    SelectedIsTarget(Chassis, b, name);
    WholeWalk(b, 3);
    EmptyUpdate();
    SameListStaysShort(b, 3, 0, []);
  }

  /** Only the chassis area is present, if any. */
  predicate ChassisOnly(areas: seq<seq<byte>>) {
    |areas| == 5 && forall i :: 0 <= i < 5 && i != 1 ==> areas[i] == []
  }

  /** An image holding nothing but a chassis area of one block is refused as truncated. */
  lemma SingleBlockRefused(areas: seq<seq<byte>>)
    requires ChassisOnly(areas) && |areas[1]| == BLOCK && areas[1][0] == 1 && areas[1][1] == 1
    ensures FormatCode(Image(areas)) == ResErr
  {
    StartsGrow(areas, 0, 1);
    StartsGrow(areas, 1, 5);
    assert areas[..0] == [] && Start(areas, 1) == HEADER;
    assert Parseable(areas);
    assert LastArea(areas, 1);
    ImageHeader(areas);
    FormatAssembled(areas);
  }

  lemma EmptyImage(fru: seq<byte>)
    requires fru == [1, 0, 0, 0, 0, 0, 0, 255, 0]
    ensures Sane(fru) && FormatCode(fru) == ResOk && Disassembled(fru).Some?
    ensures ChassisOnly(Disassembled(fru).value) && Disassembled(fru).value[1] == []
  {
    assert forall i :: 0 <= i < 5 ==> OffsetByte(fru, i) == 0;
    AllAreas(fru, [[], [], [], [], []]);
    assert forall i :: 1 <= i < 4 ==> Part(fru, i) == Some([]);
    assert CodeUpTo(fru, 1) == ResOk;
    assert CodeUpTo(fru, 2) == ResOk;
    assert CodeUpTo(fru, 3) == ResOk;
  }

  lemma EditedHead(a: Area, b: seq<byte>, name: string, value: seq<byte>)
    requires WellFormed(a, b) && Settable(true, a, b, name, value)
    ensures var out := Edited(a, b, name, value);
            |out| == BLOCK ==> out[0] == b[0] && out[1] == 1
  {
    EditIsListUpdate(a, b, name, value);
  }

  lemma EditedFreshChassis(name: string)
    requires TargetIndex(Chassis, name) == Some(0)
    ensures Settable(true, Chassis, DummyArea(Chassis), name, [])
    ensures var out := Edited(Chassis, DummyArea(Chassis), name, []);
            |out| == BLOCK && out[0] == 1 && out[1] == 1
  {
    FreshChassisIsShort();
    DummyAreaFields(Chassis);
    EmptyFirstField(DummyArea(Chassis), name);
    EditedHead(Chassis, DummyArea(Chassis), name, []);
  }

  lemma FreshBase(a: Area, areas: seq<seq<byte>>)
    requires |areas| == 5 && Aligned(areas) && InfoArea(a) && areas[Index(a)] == []
    ensures BaseArea(a, areas) == DummyArea(a) && Aligned(areas[Index(a) := []])
  {
    assert areas[Index(a) := []] == areas;
  }

  /** The edit of an image without areas that creates a chassis area of a single block. */
  lemma NoAreasThenChassis(fru: seq<byte>, name: string)
    requires Disassembled(fru).Some?
    requires ChassisOnly(Disassembled(fru).value) && Disassembled(fru).value[1] == []
    requires AreaOf(name) == Some(Chassis) && TargetIndex(Chassis, name) == Some(0)
    ensures Updatable(true, fru, name, [])
    ensures ChassisOnly(UpdatedAreas(fru, name, []))
    ensures UpdatedAreas(fru, name, [])[1] == Edited(Chassis, DummyArea(Chassis), name, [])
  {
    FreshBase(Chassis, Disassembled(fru).value);
    EditedFreshChassis(name);
  }

  /** A concrete image whose edit succeeds and whose result is refused: no areas before, a
      one-block chassis area, and nothing else, after. */
  lemma ShortLastExample()
    ensures var fru: seq<byte> := [1, 0, 0, 0, 0, 0, 0, 255, 0];
            && Sane(fru) && FormatCode(fru) == ResOk
            && Updatable(true, fru, FieldName(Chassis, 0), [])
            && FormatCode(Image(UpdatedAreas(fru, FieldName(Chassis, 0), []))) == ResErr
  {
    var fru: seq<byte> := [1, 0, 0, 0, 0, 0, 0, 255, 0];
    EmptyImage(fru);
    FieldNameResolves(Chassis, 0);
    NoAreasThenChassis(fru, FieldName(Chassis, 0));
    EditedFreshChassis(FieldName(Chassis, 0));
    SingleBlockRefused(UpdatedAreas(fru, FieldName(Chassis, 0), []));
  }
}
