/** `formatIPMIFRU`: checking and decoding the three info areas of an image, and the UUID record. */
module FruFormat {
  import opened Bytes
  import opened FruNames
  import opened FruEdit
  import opened FruImage
  import opened FruDecode

  const ROLLOVER := 0x100_0000
  const DEMARCATION := 5260320 // minutes from 1996-01-01 to 2006-01-01

  /** `formatIPMITime` up to printing: dates before 2006 are read as after the 2027 roll-over. */
  function TotalMinutes(minutes: nat): nat {
    if minutes < DEMARCATION then minutes + ROLLOVER else minutes
  }

  /** Codes 0 and 25 stand for English. */
  predicate CheckLangEng(lang: byte) {
    lang == 0 || lang == 25
  }

  predicate English(a: Area, b: seq<byte>)
    requires |b| >= 3
  {
    a.Chassis? || CheckLangEng(b[2])
  }

  /** The entries the fixed header of an area produces. */
  function HeaderReport(a: Area, b: seq<byte>): Report
    requires |b| >= 8
  {
    match a
    case Chassis => map[ChassisType := Number(b[2])]
    case Board =>
      map[LanguageCode(Board) := Number(b[2]),
          ManufactureDate := Minutes(TotalMinutes((b[3] as int) + 256 * (b[4] as int) + 65536 * (b[5] as int)))]
    case Product => map[LanguageCode(Product) := Number(b[2])]
    case _ => map[]
  }

  predicate AllZero(s: seq<byte>) {
    forall i :: 0 <= i < |s| ==> s[i] == 0
  }

  function AreaScan(a: Area, b: seq<byte>): FieldScan
    requires |b| >= 8
  {
    ScanFields(TextOf, a, Body(b)[FirstField(a)..], 0, English(a, b))
  }

  /** The verdict on the bytes of an info area: a bad checksum or stray padding is a warning. */
  function AreaCode(a: Area, b: seq<byte>): ResCode
    requires |b| >= 8
  {
    var scan := AreaScan(a, b);
    if scan.code.ResOk? && (b[|b| - 1] != CalculateChecksum(Body(b)) || !AllZero(scan.tail)) then ResWarn
    else scan.code
  }

  function AreaReport(a: Area, b: seq<byte>): Report
    requires |b| >= 8
  {
    HeaderReport(a, b) + AreaScan(a, b).report
  }

  method DecodeHeader(a: Area, b: seq<byte>, before: Report) returns (isLangEng: bool, result: Report)
    requires InfoArea(a) && |b| >= 8
    ensures isLangEng == English(a, b) && result == before + HeaderReport(a, b)
  {
    isLangEng := true;
    match a {
      case Chassis => result := before[ChassisType := Number(b[2])];
      case Board =>
        isLangEng := CheckLangEng(b[2]);
        var minutes := (b[3] as int) + 256 * (b[4] as int) + 65536 * (b[5] as int);
        result := before[LanguageCode(Board) := Number(b[2])];
        result := result[ManufactureDate := Minutes(TotalMinutes(minutes))];
      case Product =>
        isLangEng := CheckLangEng(b[2]);
        result := before[LanguageCode(Product) := Number(b[2])];
      case _ => assert false;
    }
  }

  /** The loop that looks for a non-zero byte behind the end marker. */
  method CheckPadding(b: seq<byte>, start: nat, end: nat) returns (zero: bool)
    requires start <= end <= |b|
    ensures zero <==> AllZero(b[start..end])
  {
    var iter := start;
    while iter < end
      invariant start <= iter <= end
      invariant forall i :: start <= i < iter ==> b[i] == 0
    {
      if b[iter] != 0 {
        assert b[start..end][iter - start] != 0;
        return false;
      }
      iter := iter + 1;
    }
    return true;
  }

  /** One turn of the loop of `formatIPMIFRU`, once the area's place and size are checked. */
  method DecodeArea(a: Area, b: seq<byte>, before: Report) returns (ret: ResCode, result: Report)
    requires InfoArea(a) && |b| >= 8
    ensures ret == AreaCode(a, b)
    ensures result == before + AreaReport(a, b)
  {
    var end, h := |b| - 1, FirstField(a);
    ret := if CalculateChecksum(b[..end]) != b[end] then ResWarn else ResOk;
    var isLangEng, next, code;
    isLangEng, result := DecodeHeader(a, b, before);
    assert b[h..end] == Body(b)[h..];
    code, next, result := DecodeFields(b, h, end, isLangEng, a, result);
    MergeAssoc(before, HeaderReport(a, b), AreaScan(a, b).report);
    if code.ResErr? {
      return ResErr, result;
    }
    if code.ResWarn? {
      ret := ResWarn;
    }
    var zero := CheckPadding(b, next, end);
    if !zero {
      ret := ResWarn;
    }
  }

  /** Area `i` of an image, if it is present and passes the checks in front of its decoding. */
  function AreaSlice(fru: seq<byte>, i: nat): Option<seq<byte>>
    requires |fru| > HEADER && 1 <= i < 4
  {
    var offset := OffsetByte(fru, i) * BLOCK;
    if offset + BLOCK >= |fru| || fru[offset] != 1 || !Disjoint(fru, i, fru[offset + 1]) || fru[offset + 1] == 0
       || offset + fru[offset + 1] * BLOCK > |fru|
    then None
    else Some(fru[offset..offset + fru[offset + 1] * BLOCK])
  }

  function AreaIndex(i: nat): Area
    requires 1 <= i < 4
  {
    AREAS[i]
  }

  function PartCode(i: nat, b: seq<byte>): ResCode
    requires 1 <= i < 4
    requires b != [] ==> |b| >= 8
  {
    if b == [] then ResOk else AreaCode(AreaIndex(i), b)
  }

  function PartReport(i: nat, b: seq<byte>): Report
    requires 1 <= i < 4
    requires b != [] ==> |b| >= 8
  {
    if b == [] then map[] else AreaReport(AreaIndex(i), b)
  }

  /** The bytes decoded for area `i`: [] when it is absent. */
  function Part(fru: seq<byte>, i: nat): (r: Option<seq<byte>>)
    requires |fru| > HEADER && 1 <= i < 4
    ensures r.Some? && r.value != [] ==> |r.value| >= 8
  {
    if OffsetByte(fru, i) == 0 then Some([]) else AreaSlice(fru, i)
  }

  function CodeUpTo(fru: seq<byte>, n: nat): ResCode
    requires |fru| > HEADER && 1 <= n <= 4
  {
    if n == 1 then ResOk
    else if Part(fru, n - 1).None? then ResErr
    else Worse(CodeUpTo(fru, n - 1), PartCode(n - 1, Part(fru, n - 1).value))
  }

  function ReportUpTo(fru: seq<byte>, n: nat): Report
    requires |fru| > HEADER && 1 <= n <= 4
  {
    if n == 1 then map[FormatVersion := Number(fru[0])]
    else if CodeUpTo(fru, n - 1).ResErr? || Part(fru, n - 1).None? then ReportUpTo(fru, n - 1)
    else ReportUpTo(fru, n - 1) + PartReport(n - 1, Part(fru, n - 1).value)
  }

  const RECORD := 22 // record header, sub-record type, and 16 bytes of UUID
  const UUID_ORDER: seq<nat> := [3, 2, 1, 0, 5, 4, 7, 6, 8, 9, 10, 11, 12, 13, 14, 15]

  /** The UUID of the record at the front of `s`, printed with its first three groups byte-swapped. */
  function UuidText(s: seq<byte>): seq<byte>
    requires |s| >= RECORD
  {
    var hex := HexText(seq(16, i requires 0 <= i < 16 => s[6 + UUID_ORDER[i]]));
    hex[..8] + [45] + hex[8..12] + [45] + hex[12..16] + [45] + hex[16..20] + [45] + hex[20..]
  }

  /** The first system-unique-ID record on the MultiRecord walk over `s`. */
  function UuidFrom(s: seq<byte>): Option<seq<byte>> {
    if |s| < RECORD then None
    else if s[0] == 3 && s[5] == 7 then Some(UuidText(s))
    else if s[1] >= 128 || s[2] + 5 > |s| as int then None
    else UuidFrom(s[s[2] as int + 5..])
  }

  function UuidReport(s: seq<byte>): Report {
    match UuidFrom(s)
    case Some(uuid) => map[MultirecordUuid := Text(uuid)]
    case None => map[]
  }

  /** The MultiRecord area the UUID search looks at: [] when absent or out of range, or when
      another area starts inside the blocks its first byte counts. */
  function UuidArea(fru: seq<byte>): seq<byte>
    requires |fru| > HEADER
  {
    var offset := OffsetByte(fru, 4) * BLOCK;
    if offset == 0 || offset >= |fru| || !Disjoint(fru, 4, fru[offset]) then [] else fru[offset..]
  }

  method ParseMultirecordUUID(device: seq<byte>, before: Report) returns (result: Report)
    requires |device| > HEADER
    ensures result == before + UuidReport(UuidArea(device))
  {
    result := before;
    var areaOffset := OffsetByte(device, 4);
    if areaOffset == 0 {
      return;
    }
    areaOffset := areaOffset * BLOCK;
    if areaOffset >= |device| {
      return;
    }
    var clear := VerifyOffset(device, 4, device[areaOffset]);
    if !clear {
      return;
    }
    ghost var area := device[areaOffset..];
    while areaOffset + RECORD <= |device|
      invariant areaOffset <= |device| && UuidFrom(area) == UuidFrom(device[areaOffset..])
    {
      var s := device[areaOffset..];
      if device[areaOffset] == 3 && device[areaOffset + 5] == 7 {
        result := result[MultirecordUuid := Text(UuidText(s))];
        return;
      }
      if device[areaOffset + 1] >= 128 {
        return;
      }
      var next := areaOffset + (device[areaOffset + 2] as int) + 5;
      if next > |device| {
        return;
      }
      assert s[(s[2] as int) + 5..] == device[next..];
      areaOffset := next;
    }
  }

  function FormatCode(fru: seq<byte>): ResCode {
    if |fru| <= HEADER then ResErr else CodeUpTo(fru, 4)
  }

  /** What is reported, up to the area that cannot be decoded if there is one. */
  function FormatReport(fru: seq<byte>): Report {
    if |fru| <= HEADER then map[]
    else if FormatCode(fru).ResErr? then ReportUpTo(fru, 4)
    else ReportUpTo(fru, 4) + UuidReport(UuidArea(fru))
  }

  /** The checks of one turn of the loop: find area `i`, [] when the header says it is absent. */
  method LocateArea(fru: seq<byte>, i: nat) returns (part: Option<seq<byte>>)
    requires |fru| > HEADER && 1 <= i < 4
    ensures part == Part(fru, i)
  {
    var offset := OffsetByte(fru, i);
    if offset == 0 {
      return Some([]);
    }
    offset := offset * BLOCK;
    if offset + BLOCK >= |fru| || fru[offset] != 1 {
      return None;
    }
    var clear := VerifyOffset(fru, i, fru[offset + 1]);
    if !clear {
      return None;
    }
    var size := fru[offset + 1] * BLOCK;
    if size == 0 || offset + size > |fru| {
      return None;
    }
    return Some(fru[offset..offset + size]);
  }

  /** What finding area `i`, or not finding it, means for the whole. */
  lemma FormatStep(fru: seq<byte>, before: Report, i: nat)
    requires |fru| > HEADER && 1 <= i < 4 && CodeUpTo(fru, i) != ResErr
    ensures Part(fru, i).None? ==> CodeUpTo(fru, 4) == ResErr && ReportUpTo(fru, 4) == ReportUpTo(fru, i)
    ensures Part(fru, i).Some? ==>
              var b := Part(fru, i).value;
              && CodeUpTo(fru, i + 1) == Worse(CodeUpTo(fru, i), PartCode(i, b))
              && before + ReportUpTo(fru, i + 1) == (before + ReportUpTo(fru, i)) + PartReport(i, b)
              && (PartCode(i, b) == ResErr ==>
                   CodeUpTo(fru, 4) == ResErr && ReportUpTo(fru, 4) == ReportUpTo(fru, i + 1))
  {
    if Part(fru, i).Some? {
      var b := Part(fru, i).value;
      assert ReportUpTo(fru, i + 1) == ReportUpTo(fru, i) + PartReport(i, b);
      MergeAssoc(before, ReportUpTo(fru, i), PartReport(i, b));
    } else {
      assert ReportUpTo(fru, i + 1) == ReportUpTo(fru, i);
    }
    if CodeUpTo(fru, i + 1) == ResErr {
      CodeStaysError(fru, i + 1);
    }
  }

  /** Decodes area `i` on top of what was reported before, and nothing when it is absent. */
  method DecodePart(i: nat, b: seq<byte>, report: Report) returns (ret: ResCode, result: Report)
    requires 1 <= i < 4 && (b != [] ==> |b| >= 8)
    ensures ret == PartCode(i, b) && result == report + PartReport(i, b)
  {
    ret, result := ResOk, report;
    if b != [] {
      ret, result := DecodeArea(AreaIndex(i), b, report);
    }
  }

  /** One turn of the loop of `formatIPMIFRU`. */
  method FormatArea(fru: seq<byte>, i: nat, sofar: ResCode, report: Report, ghost before: Report)
    returns (ret: ResCode, result: Report)
    requires |fru| > HEADER && 1 <= i < 4
    requires sofar == CodeUpTo(fru, i) != ResErr && report == before + ReportUpTo(fru, i)
    ensures ret != ResErr ==> ret == CodeUpTo(fru, i + 1) && result == before + ReportUpTo(fru, i + 1)
    ensures ret == ResErr ==> CodeUpTo(fru, 4) == ResErr && result == before + ReportUpTo(fru, 4)
  {
    var part := LocateArea(fru, i);
    FormatStep(fru, before, i);
    if part.None? {
      return ResErr, report;
    }
    ret, result := DecodePart(i, part.value, report);
    ret := Worse(sofar, ret);
  }

  method FormatIPMIFRU(fru: seq<byte>, before: Report) returns (ret: ResCode, result: Report)
    ensures ret == FormatCode(fru)
    ensures result == before + FormatReport(fru)
  {
    result := before;
    if |fru| <= HEADER {
      return ResErr, result;
    }
    ret := ResOk;
    result := result[FormatVersion := Number(fru[0])];
    var i := 1;
    while i < 4
      invariant 1 <= i <= 4
      invariant ret == CodeUpTo(fru, i) && ret != ResErr
      invariant result == before + ReportUpTo(fru, i)
    {
      ret, result := FormatArea(fru, i, ret, result, before);
      if ret.ResErr? {
        return;
      }
      i := i + 1;
    }
    MergeAssoc(before, ReportUpTo(fru, 4), UuidReport(UuidArea(fru)));
    result := ParseMultirecordUUID(fru, result);
  }

  lemma {:induction false} CodeStaysError(fru: seq<byte>, n: nat)
    requires |fru| > HEADER && 1 <= n <= 4 && CodeUpTo(fru, n) == ResErr
    ensures CodeUpTo(fru, 4) == ResErr && ReportUpTo(fru, 4) == ReportUpTo(fru, n)
    decreases 4 - n
  {
    if n < 4 {
      assert CodeUpTo(fru, n + 1) == ResErr;
      CodeStaysError(fru, n + 1);
    }
  }

  /** The code of five areas decoded on their own. */
  function AreasCode(areas: seq<seq<byte>>, n: nat): ResCode
    requires |areas| == 5 && 1 <= n <= 4
    requires forall i :: 1 <= i < 4 && areas[i] != [] ==> |areas[i]| >= 8
  {
    if n == 1 then ResOk else Worse(AreasCode(areas, n - 1), PartCode(n - 1, areas[n - 1]))
  }

  /** The report of five areas decoded on their own. */
  function AreasReport(areas: seq<seq<byte>>, version: byte, n: nat): Report
    requires |areas| == 5 && 1 <= n <= 4
    requires forall i :: 1 <= i < 4 && areas[i] != [] ==> |areas[i]| >= 8
  {
    if n == 1 then map[FormatVersion := Number(version)]
    else if AreasCode(areas, n - 1).ResErr? then AreasReport(areas, version, n - 1)
    else AreasReport(areas, version, n - 1) + PartReport(n - 1, areas[n - 1])
  }

  /** When every area of an image is found where it should be, the image decodes to what its areas
      decode to. */
  lemma {:induction false} FormatByAreas(fru: seq<byte>, areas: seq<seq<byte>>, n: nat)
    requires |fru| > HEADER && |areas| == 5 && 1 <= n <= 4
    requires forall i :: 1 <= i < 4 && areas[i] != [] ==> |areas[i]| >= 8
    requires forall i :: 1 <= i < n ==> Part(fru, i) == Some(areas[i])
    ensures CodeUpTo(fru, n) == AreasCode(areas, n)
    ensures ReportUpTo(fru, n) == AreasReport(areas, fru[0], n)
  {
    if n > 1 {
      FormatByAreas(fru, areas, n - 1);
    }
  }

  lemma PartPresent(fru: seq<byte>, i: nat)
    requires FormatCode(fru) != ResErr && 1 <= i < 4
    ensures |fru| > HEADER && Part(fru, i).Some?
  {
    if Part(fru, i).None? {
      assert CodeUpTo(fru, i + 1) == ResErr;
      CodeStaysError(fru, i + 1);
    }
  }

  /** A parseable image: its areas, taken apart, are the ones that were decoded. */
  lemma PartsOfParseable(fru: seq<byte>, i: nat)
    requires |fru| > HEADER && Disassembled(fru).Some? && 1 <= i < 4 && Part(fru, i).Some?
    ensures Part(fru, i) == Some(Disassembled(fru).value[i])
    ensures var b := Disassembled(fru).value[i]; b != [] ==> |b| >= 8 && b[0] == 1 && b[1] * BLOCK == |b|
  {
    assert AreaBytes(fru, i) == Some(Disassembled(fru).value[i]);
    assert AreaBytes(fru, i) == Part(fru, i);
  }

  /** No later area is present. */
  predicate LastArea(areas: seq<seq<byte>>, i: nat) {
    i < |areas| && areas[i] != [] && forall j :: i < j < |areas| ==> areas[j] == []
  }

  /** The last area, if it is an info area, is longer than one block. */
  predicate LastIsLong(areas: seq<seq<byte>>)
    requires |areas| == 5
  {
    forall i :: 1 <= i < 4 && LastArea(areas, i) ==> |areas[i]| > BLOCK
  }

  lemma AfterLast(areas: seq<seq<byte>>, i: nat)
    requires |areas| == 5 && i < 5 && areas[i] != []
    ensures LastArea(areas, i) ==> Start(areas, i) + |areas[i]| == Start(areas, 5)
    ensures !LastArea(areas, i) ==> Start(areas, i) + |areas[i]| < Start(areas, 5)
  {
    StartsGrow(areas, i, 5);
    if !LastArea(areas, i) {
      var j :| i < j < 5 && areas[j] != [];
      StartsGrow(areas, i, j);
      StartsGrow(areas, j, 5);
    }
  }

  /** Version-1 areas with right length bytes. */
  predicate Parseable(areas: seq<seq<byte>>): (r: bool)
    ensures r ==> |areas| == 5 && forall i :: 1 <= i < 4 && areas[i] != [] ==> |areas[i]| >= 8
  {
    && Measured(areas) && Aligned(areas) && Addressable(areas)
    && forall i :: 1 <= i < 4 && areas[i] != [] ==> areas[i][0] == 1
  }

  lemma PartOfAssembled(areas: seq<seq<byte>>, i: nat)
    requires Parseable(areas) && 1 <= i < 4
    ensures |Image(areas)| > HEADER || areas[i] == []
    ensures |Image(areas)| > HEADER ==>
              Part(Image(areas), i) ==
              if areas[i] != [] && LastArea(areas, i) && |areas[i]| == BLOCK then None else Some(areas[i])
  {
    var fru := Image(areas);
    ImageHeader(areas);
    HeaderOffset(areas, i);
    if areas[i] != [] {
      AreaInImage(areas, i);
      AfterLast(areas, i);
      AssembledDisjoint(areas, i);
      var s := Start(areas, i);
      assert fru[s] == fru[s..s + |areas[i]|][0] && fru[s + 1] == fru[s..s + |areas[i]|][1];
    }
  }

  /** In an assembled image the UUID search looks at the whole MultiRecord area. */
  lemma UuidOfAssembled(areas: seq<seq<byte>>)
    requires |areas| == 5 && Aligned(areas) && Addressable(areas) && |Image(areas)| > HEADER
    ensures UuidArea(Image(areas)) == areas[4]
  {
    var fru := Image(areas);
    ImageHeader(areas);
    HeaderOffset(areas, 4);
    if areas[4] != [] {
      AreaInImage(areas, 4);
      StartsGrow(areas, 4, 5);
      forall j | 0 <= j < 4
        ensures OffsetByte(fru, j) < OffsetByte(fru, 4)
      {
        HeaderOffset(areas, j);
        StartsGrow(areas, j, 4);
      }
    }
  }

  lemma ReportWithUuid(r: Report, s: seq<byte>, stopped: bool)
    ensures r + (if stopped then map[] else UuidReport(s)) == if stopped then r else r + UuidReport(s)
  {
  }

  lemma LongAssembled(areas: seq<seq<byte>>, fru: seq<byte>)
    requires Parseable(areas) && fru == Image(areas) && |fru| > HEADER && LastIsLong(areas)
    ensures FormatCode(fru) == AreasCode(areas, 4)
    ensures FormatReport(fru) == AreasReport(areas, 1, 4) +
              if AreasCode(areas, 4).ResErr? then map[] else UuidReport(areas[4])
  {
    ImageHeader(areas);
    UuidOfAssembled(areas);
    forall i | 1 <= i < 4 ensures Part(fru, i) == Some(areas[i]) {
      PartOfAssembled(areas, i);
    }
    FormatByAreas(fru, areas, 4);
    ReportWithUuid(AreasReport(areas, 1, 4), areas[4], AreasCode(areas, 4).ResErr?);
  }

  lemma ShortAssembled(areas: seq<seq<byte>>, fru: seq<byte>)
    requires Parseable(areas) && fru == Image(areas) && |fru| > HEADER && !LastIsLong(areas)
    ensures FormatCode(fru) == ResErr
  {
    var i :| 1 <= i < 4 && LastArea(areas, i) && |areas[i]| <= BLOCK;
    PartOfAssembled(areas, i);
    assert CodeUpTo(fru, i + 1) == ResErr;
    CodeStaysError(fru, i + 1);
  }

  /** An assembled image decodes to what its areas decode to, unless the last one is an 8-byte info
      area: that is refused as truncated. */
  lemma FormatAssembled(areas: seq<seq<byte>>)
    requires Parseable(areas) && |Image(areas)| > HEADER
    ensures FormatCode(Image(areas)) == if LastIsLong(areas) then AreasCode(areas, 4) else ResErr
    ensures LastIsLong(areas) ==>
              FormatReport(Image(areas)) == AreasReport(areas, 1, 4) +
                if AreasCode(areas, 4).ResErr? then map[] else UuidReport(areas[4])
  {
    if LastIsLong(areas) {
      LongAssembled(areas, Image(areas));
    } else {
      ShortAssembled(areas, Image(areas));
    }
  }
}
