/** `readFRUContents`: finding a FRU image on a device and reading it through the block cache. */
module FruReadBack {
  import opened Bytes
  import opened FruImage
  import opened FruReader
  import FruDecode
  import FruUpdate

  const TYAN: seq<byte> := [36, 84, 89, 65, 78, 36] // $TYAN$
  const GIGABYTE: seq<byte> := [71, 73, 71, 65, 66, 89, 84, 69]
  const TYAN_OFFSET := 0x6000
  const GIGABYTE_OFFSET := 0x4000
  const RECORD_LIMIT := 0xFFFF
  const XML_OFFSET := 512
  const XML_SIZE := 32 * 1024
  const MAC_FIELD := "BOARD_INFO_AM2"

  /** Where a header was found, its block, and where the board's compressed XML is (0 for none). */
  datatype FruSections = FruSections(offset: nat, header: seq<byte>, xmlOffset: nat)

  /** A buffer after a read put `bytes` in front. */
  function Filled(buffer: seq<byte>, bytes: seq<byte>): (r: seq<byte>)
    requires |bytes| <= |buffer|
    ensures |r| == |buffer| && r[..|bytes|] == bytes
  {
    bytes + buffer[|bytes|..]
  }

  function Zeros(n: nat): (r: seq<byte>)
    ensures |r| == n
  {
    seq(n, _ => 0)
  }

  function Blank(): (r: seq<byte>)
    ensures |r| == CACHE_BLOCK
  {
    Zeros(CACHE_BLOCK)
  }

  /** The block a header is looked for in. */
  function HeaderBlock(dev: seq<byte>, base: nat): (r: seq<byte>)
    ensures |r| == CACHE_BLOCK
  {
    Filled(Blank(), Slice(dev, base, HEADER))
  }

  /** Where the common header is: at 0, or where the board's vendor puts it. */
  function FruBase(dev: seq<byte>): Option<nat> {
    var first := HeaderBlock(dev, 0);
    if ValidHeader(first) then Some(0)
    else if TYAN <= first then (if ValidHeader(HeaderBlock(dev, TYAN_OFFSET)) then Some(TYAN_OFFSET) else None)
    else if GIGABYTE <= first then
      (if ValidHeader(HeaderBlock(dev, GIGABYTE_OFFSET)) then Some(GIGABYTE_OFFSET) else None)
    else None
  }

  /** The present areas are in the order of section 17. */
  predicate Increasing(h: seq<byte>)
    requires HEADER <= |h|
  {
    forall i, j :: 0 <= i < j < 5 && OffsetByte(h, i) != 0 && OffsetByte(h, j) != 0 ==>
      OffsetByte(h, i) < OffsetByte(h, j)
  }

  lemma OrderedOffsets(h: seq<byte>)
    requires HEADER <= |h|
    ensures Increasing(h) <==> forall i, j :: 1 <= i < j <= 5 && h[i] != 0 && h[j] != 0 ==> h[i] < h[j]
  {
    assert forall i :: 1 <= i <= 5 ==> h[i] == OffsetByte(h, i - 1);
    assert forall i :: 0 <= i < 5 ==> OffsetByte(h, i) == h[i + 1];
  }

  function Max(a: nat, b: nat): nat {
    if a > b then a else b
  }

  /** The end of the first `n` areas by their length bytes; None when the device has no such byte. */
  function AreasEnd(dev: seq<byte>, base: nat, h: seq<byte>, n: nat): Option<nat>
    requires HEADER <= |h| && n <= 4
  {
    if n == 0 then Some(HEADER)
    else
      match AreasEnd(dev, base, h, n - 1)
      case None => None
      case Some(end) =>
        var offset := OffsetByte(h, n - 1);
        if offset == 0 then Some(end)
        else if base + offset * BLOCK + 2 > |dev| then None
        else Some(Max(offset * BLOCK + dev[base + offset * BLOCK + 1] * BLOCK, end))
  }

  /** The end of the record list at `offset`. */
  function RecordsEnd(dev: seq<byte>, base: nat, offset: nat): (r: Option<nat>)
    ensures r.Some? ==> r.value >= offset
    decreases RECORD_LIMIT - offset
  {
    if offset >= RECORD_LIMIT then Some(offset)
    else if base + offset + 3 > |dev| then None
    else
      var next := offset + dev[base + offset + 2] + 5;
      if dev[base + offset + 1] >= 0x80 then Some(next) else RecordsEnd(dev, base, next)
  }

  lemma RecordAt(pre: seq<byte>, head: seq<byte>, more: seq<byte>)
    requires |head| == 5
    ensures var dev := pre + head + more; dev[|pre| + 1] == head[1] && dev[|pre| + 2] == head[2]
  {
  }

  /** The walk over the records, each with a header of five bytes: type, flags, and the length of its data
      among them. The list ends with the record marked as the last one, or at 64 KiB. */
  lemma RecordWalk(pre: seq<byte>, head: seq<byte>, data: seq<byte>, rest: seq<byte>, base: nat)
    requires |head| == 5 && head[2] == |data| && base <= |pre|
    ensures var offset, dev := |pre| - base, pre + head + (data + rest);
            RecordsEnd(dev, base, offset) ==
            if offset >= 65535 then Some(offset)
            else if head[1] >= 128 then Some(offset + 5 + |data|)
            else RecordsEnd(dev, base, offset + 5 + |data|)
  {
    RecordAt(pre, head, data + rest);
  }

  /** How many bytes of FRU data there are behind `base`. */
  function Extent(dev: seq<byte>, base: nat): Option<nat> {
    var h := HeaderBlock(dev, base);
    var records := OffsetByte(h, 4) * BLOCK;
    var end := AreasEnd(dev, base, h, 4);
    if end.None? || records == 0 then end
    else
      match RecordsEnd(dev, base, records)
      case None => None
      case Some(last) => Some(Max(end.value, last))
  }

  /** The MAC address in the XML of a board, [] for none; `macOf` unpacks the XML and queries it. */
  function XmlMac(dev: seq<byte>, macOf: seq<byte> -> seq<byte>): seq<byte> {
    if |dev| <= XML_OFFSET then [] else macOf(Filled(Zeros(XML_SIZE), Slice(dev, XML_OFFSET, XML_SIZE)))
  }

  /** The image with a MAC address written to the field the rest of the system expects it in, or as
      it was when there is none or the field cannot be set. */
  function MacWritten(resize: bool, image: seq<byte>, mac: seq<byte>): seq<byte> {
    var value := FruDecode.MAC_PREFIX + mac;
    if mac != [] && FruUpdate.Updatable(resize, image, MAC_FIELD, value)
    then Image(FruUpdate.UpdatedAreas(image, MAC_FIELD, value))
    else image
  }

  /** What becomes of an image read behind `base`. */
  function Laundered(dev: seq<byte>, base: nat, image: seq<byte>, resize: bool,
                     macOf: seq<byte> -> seq<byte>): seq<byte>
  {
    if base == GIGABYTE_OFFSET then MacWritten(resize, image, XmlMac(dev, macOf)) else image
  }

  /** The bytes handed out: the image, with the device's bytes behind it when the storage size is given. */
  function Stored(dev: seq<byte>, base: nat, image: seq<byte>, storageSize: Option<nat>): seq<byte> {
    match storageSize
    case None => image
    case Some(size) =>
      if size < base + |image| || (size > base + |image| && size > |dev|) then []
      else image + Slice(dev, base + |image|, size - base - |image|)
  }

  /** Given the storage size, the image must fit, and the device must go on to the end of the storage. */
  lemma StoredParts(dev: seq<byte>, base: nat, image: seq<byte>, size: nat)
    ensures Stored(dev, base, image, None) == image
    ensures size < base + |image| ==> Stored(dev, base, image, Some(size)) == []
    ensures size == base + |image| ==> Stored(dev, base, image, Some(size)) == image
    ensures base + |image| < size <= |dev| ==>
              Stored(dev, base, image, Some(size)) == image + dev[base + |image|..size]
    ensures base + |image| < size && |dev| < size ==> Stored(dev, base, image, Some(size)) == []
  {
  }

  /** `image` is the FRU data behind `base`: as long as the headers say, if the device holds the bytes
      they are read from, and equal to the device as far as that goes. */
  predicate ImageIs(dev: seq<byte>, base: nat, image: seq<byte>) {
    var extent := Extent(dev, base);
    Slice(dev, base, |image|) <= image && (extent.Some? ==> |image| == extent.value)
  }

  /** What is handed out for a header found at `base`. */
  ghost predicate HandedOut(dev: seq<byte>, base: nat, resize: bool, macOf: seq<byte> -> seq<byte>,
                            storageSize: Option<nat>, contents: seq<byte>)
  {
    if Increasing(HeaderBlock(dev, base)) then
      exists image :: ImageIs(dev, base, image)
                      && contents == Stored(dev, base, Laundered(dev, base, image, resize, macOf), storageSize)
    else contents == []
  }

  /** The outcome promised for a device. */
  ghost predicate Outcome(dev: seq<byte>, resize: bool, macOf: seq<byte> -> seq<byte>, storageSize: Option<nat>,
                          contents: seq<byte>, found: bool)
  {
    match FruBase(dev)
    case None => !found && contents == []
    case Some(base) => found && HandedOut(dev, base, resize, macOf, storageSize, contents)
  }

  /** What the search from 0 reports for a header at `base`. */
  function SectionsAt(dev: seq<byte>, base: nat): FruSections {
    FruSections(base, HeaderBlock(dev, base), if base == GIGABYTE_OFFSET then XML_OFFSET else 0)
  }

  method FindFRUHeader(reader: FRUReader, startingOffset: nat) returns (sections: Option<FruSections>)
    requires reader.Valid() && startingOffset in {0, TYAN_OFFSET, GIGABYTE_OFFSET}
    modifies reader
    ensures reader.Valid()
    ensures sections.Some? ==>
              var s := sections.value; |s.header| == CACHE_BLOCK && ValidHeader(s.header) && s.offset <= TYAN_OFFSET
    ensures sections.Some? ==> sections.value.xmlOffset in {0, XML_OFFSET}
    ensures reader.device.Some? ==>
              var dev := reader.device.value;
              var base := if startingOffset == 0 then FruBase(dev)
                          else if ValidHeader(HeaderBlock(dev, startingOffset)) then Some(startingOffset) else None;
              if base.None? then sections == None
              else if startingOffset == 0 then sections == Some(SectionsAt(dev, base.value))
              else sections == Some(FruSections(startingOffset, HeaderBlock(dev, startingOffset), 0))
    decreases startingOffset == 0
  {
    var ret, bytes := reader.Read(startingOffset, HEADER);
    if ret < 0 {
      return None;
    }
    var blockData := Filled(Blank(), bytes);
    var valid := ValidateHeader(blockData);
    if valid {
      return Some(FruSections(startingOffset, blockData, 0));
    }
    if startingOffset != 0 {
      return None;
    }
    sections := None;
    if TYAN <= blockData {
      sections := FindFRUHeader(reader, TYAN_OFFSET);
    } else if GIGABYTE <= blockData {
      sections := FindFRUHeader(reader, GIGABYTE_OFFSET);
      if sections.Some? {
        sections := Some(sections.value.(xmlOffset := XML_OFFSET));
      }
    }
  }

  /** A read of `len` bytes that lie on the device fills the buffer with them. */
  method ReadBlock(reader: FRUReader, start: nat, len: nat, buffer: seq<byte>) returns (ok: bool, blockData: seq<byte>)
    requires reader.Valid() && |buffer| == CACHE_BLOCK && len <= CACHE_BLOCK && start + len <= ADDRESS_LIMIT
    modifies reader
    ensures reader.Valid() && |blockData| == CACHE_BLOCK
    ensures reader.device.Some? ==> ok
    ensures reader.device.Some? ==> Slice(reader.device.value, start, len) <= blockData[..len]
  {
    var ret, bytes := reader.Read(start, len);
    ok := ret >= 0;
    blockData := Filled(buffer, bytes);
  }

  lemma NextInOrder(h: seq<byte>, n: nat, prev: nat)
    requires HEADER <= |h| && n < 5 && InOrder(h, n, prev)
    ensures OffsetByte(h, n) > prev ==> InOrder(h, n + 1, OffsetByte(h, n))
    ensures OffsetByte(h, n) == 0 ==> InOrder(h, n + 1, prev)
    ensures 0 < OffsetByte(h, n) <= prev ==> !Increasing(h)
  {
  }

  /** No area among the first `n` is behind a later one; `prev` is the last one present. */
  predicate InOrder(h: seq<byte>, n: nat, prev: nat)
    requires HEADER <= |h| && n <= 5
  {
    && (prev != 0 ==> exists i :: 0 <= i < n && OffsetByte(h, i) == prev)
    && (forall i :: 0 <= i < n ==> OffsetByte(h, i) <= prev)
    && forall i, j :: 0 <= i < j < n && OffsetByte(h, i) != 0 && OffsetByte(h, j) != 0 ==>
         OffsetByte(h, i) < OffsetByte(h, j)
  }

  /** `end` is where the area at `offset` ends, if the device has its length byte. */
  predicate LimitIs(device: Option<seq<byte>>, base: nat, offset: nat, end: nat) {
    device.Some? && base + offset + 2 <= |device.value| ==> end == offset + device.value[base + offset + 1] * BLOCK
  }

  /** `end` is where the first `n` areas end, if the device has their length bytes. */
  predicate EndIs(device: Option<seq<byte>>, base: nat, h: seq<byte>, n: nat, end: nat)
    requires HEADER <= |h| && n <= 4
  {
    device.Some? && AreasEnd(device.value, base, h, n).Some? ==> AreasEnd(device.value, base, h, n).value == end
  }

  lemma EndNext(device: Option<seq<byte>>, base: nat, h: seq<byte>, n: nat, end: nat)
    requires HEADER <= |h| && n < 4 && EndIs(device, base, h, n, end)
    ensures OffsetByte(h, n) == 0 ==> EndIs(device, base, h, n + 1, end)
    ensures OffsetByte(h, n) != 0 ==>
              forall e :: LimitIs(device, base, OffsetByte(h, n) * BLOCK, e) ==>
                EndIs(device, base, h, n + 1, Max(e, end))
  {
  }

  /** The end of the area at `areaOffset`, by its length byte. */
  method MeasureArea(reader: FRUReader, base: nat, areaOffset: nat, buffer: seq<byte>)
    returns (ok: bool, end: nat, blockData: seq<byte>)
    requires reader.Valid() && |buffer| == CACHE_BLOCK && base <= TYAN_OFFSET && areaOffset <= 255 * BLOCK
    modifies reader
    ensures reader.Valid() && |blockData| == CACHE_BLOCK && end <= 0x1000
    ensures reader.device.Some? ==> ok
    ensures LimitIs(reader.device, base, areaOffset, end)
  {
    ok, blockData := ReadBlock(reader, base + areaOffset, 2, buffer);
    var length := blockData[..2][1];
    end := areaOffset + length * BLOCK;
  }

  /** The walk over the common header. */
  method MeasureAreas(reader: FRUReader, base: nat, header: seq<byte>) returns (ok: bool, fruLength: nat)
    requires reader.Valid() && |header| == CACHE_BLOCK && base <= TYAN_OFFSET
    modifies reader
    ensures reader.Valid() && HEADER <= fruLength <= 0x1000
    ensures ok ==> Increasing(header)
    ensures reader.device.Some? ==> ok == Increasing(header)
    ensures ok ==> EndIs(reader.device, base, header, 4, fruLength)
  {
    fruLength := HEADER;
    var blockData := header;
    var prevOffset, area := 0, 0;
    while area < 5
      invariant area <= 5 && prevOffset <= 255
      invariant reader.Valid() && |blockData| == CACHE_BLOCK
      invariant HEADER <= fruLength <= 0x1000 && InOrder(header, area, prevOffset)
      invariant EndIs(reader.device, base, header, if area < 4 then area else 4, fruLength)
    {
      var areaOffset := OffsetByte(header, area);
      NextInOrder(header, area, prevOffset);
      if area < 4 {
        EndNext(reader.device, base, header, area, fruLength);
      }
      if areaOffset != 0 {
        if areaOffset <= prevOffset {
          return false, fruLength;
        }
        prevOffset := areaOffset;
        if area < 4 {
          var end;
          ok, end, blockData := MeasureArea(reader, base, areaOffset * BLOCK, blockData);
          if !ok {
            return false, fruLength;
          }
          fruLength := Max(end, fruLength);
        }
      }
      area := area + 1;
    }
    ok := true;
  }

  /** The walk over the multi-record area. */
  method MeasureRecords(reader: FRUReader, base: nat, records: nat) returns (ok: bool, end: nat)
    requires reader.Valid() && base <= TYAN_OFFSET && records <= 255 * BLOCK
    modifies reader
    ensures reader.Valid() && records <= end <= RECORD_LIMIT + 260
    ensures reader.device.Some? ==>
              ok && var last := RecordsEnd(reader.device.value, base, records); last.Some? ==> last.value == end
  {
    end := records;
    var blockData := Blank();
    while end < RECORD_LIMIT
      invariant reader.Valid() && |blockData| == CACHE_BLOCK && records <= end <= RECORD_LIMIT + 260
      invariant reader.device.Some? ==>
                  RecordsEnd(reader.device.value, base, records).Some? ==>
                    RecordsEnd(reader.device.value, base, records) == RecordsEnd(reader.device.value, base, end)
    {
      ok, blockData := ReadBlock(reader, base + end, 3, blockData);
      if !ok {
        return false, end;
      }
      var record := blockData[..3];
      end := end + record[2] + 5;
      if record[1] >= 0x80 {
        return true, end;
      }
    }
    ok := true;
  }

  /** How much there is to read. */
  method MeasureFru(reader: FRUReader, base: nat, header: seq<byte>) returns (ok: bool, fruLength: nat)
    requires reader.Valid() && |header| == CACHE_BLOCK && base <= TYAN_OFFSET
    modifies reader
    ensures reader.Valid() && HEADER <= fruLength <= 0x20000
    ensures ok ==> Increasing(header) && OffsetByte(header, 4) * BLOCK <= fruLength
    ensures reader.device.Some? ==> ok == Increasing(header)
    ensures reader.device.Some? && ok && header == HeaderBlock(reader.device.value, base) ==>
              var extent := Extent(reader.device.value, base); extent.Some? ==> extent.value == fruLength
  {
    ok, fruLength := MeasureAreas(reader, base, header);
    var records := OffsetByte(header, 4);
    if ok && records != 0 {
      var end;
      ok, end := MeasureRecords(reader, base, records * BLOCK);
      fruLength := Max(end, fruLength);
    }
  }

  /** Header offsets in order leave no area with a size below zero. */
  lemma OrderedSane(header: seq<byte>, fru: seq<byte>)
    requires |header| == CACHE_BLOCK && HEADER <= |fru| && fru[..HEADER] == header[..HEADER]
    requires Increasing(header) && OffsetByte(header, 4) * BLOCK <= |fru|
    ensures Sane(fru)
  {
    SameHeader(header, fru);
    var next := FirstSet(fru, 2);
    if OffsetByte(fru, 0) != 0 && next.Some? {
      var j :| 2 <= j < 6 && fru[j] == next.value;
      assert OffsetByte(fru, j - 1) == next.value;
    }
  }

  method ParseMacFromGzipXmlHeader(reader: FRUReader, macOf: seq<byte> -> seq<byte>, offset: nat)
    returns (mac: seq<byte>)
    requires reader.Valid() && offset == XML_OFFSET
    modifies reader
    ensures reader.Valid()
    ensures reader.device.Some? ==> mac == XmlMac(reader.device.value, macOf)
  {
    var rc, headerData := reader.Read(offset, XML_SIZE);
    mac := if rc <= 0 then [] else macOf(Filled(Zeros(XML_SIZE), headerData));
  }

  /** The MAC address of a Gigabyte board goes into the image. */
  method LaunderMac(reader: FRUReader, resize: bool, macOf: seq<byte> -> seq<byte>, xmlOffset: nat, image: seq<byte>)
    returns (device: seq<byte>)
    requires reader.Valid() && xmlOffset in {0, XML_OFFSET} && Sane(image)
    modifies reader
    ensures reader.Valid()
    ensures reader.device.Some? ==>
              var base := if xmlOffset == 0 then 0 else GIGABYTE_OFFSET;
              device == Laundered(reader.device.value, base, image, resize, macOf)
  {
    device := image;
    if xmlOffset != 0 {
      var mac := ParseMacFromGzipXmlHeader(reader, macOf, xmlOffset);
      if mac != [] {
        var _, updated := FruUpdate.UpdateAddProperty(resize, FruDecode.MAC_PREFIX + mac, MAC_FIELD, device);
        device := updated;
      }
    }
  }

  /** The FRU data behind a header, as long as its areas and records say. */
  method ReadImage(reader: FRUReader, base: nat, header: seq<byte>) returns (ok: bool, device: seq<byte>)
    requires reader.Valid() && |header| == CACHE_BLOCK && base <= TYAN_OFFSET
    modifies reader
    ensures reader.Valid() && (ok ==> Sane(device))
    ensures reader.device.Some? && header == HeaderBlock(reader.device.value, base) ==>
              ok == Increasing(header) && (ok ==> ImageIs(reader.device.value, base, device))
  {
    var fruLength;
    device := header[..HEADER];
    ok, fruLength := MeasureFru(reader, base, header);
    if ok {
      ok, device := ReadBody(reader, base, device, fruLength);
      if ok {
        OrderedSane(header, device);
      }
    }
  }

  method HandOut(reader: FRUReader, resize: bool, macOf: seq<byte> -> seq<byte>, sections: FruSections,
                 image: seq<byte>,
                 storageSize: Option<nat>) returns (device: seq<byte>)
    requires reader.Valid() && Sane(image) && (storageSize.Some? ==> storageSize.value <= ADDRESS_LIMIT)
    requires sections.xmlOffset in {0, XML_OFFSET}
    modifies reader
    ensures reader.Valid()
    ensures reader.device.Some?
            && sections.xmlOffset == (if sections.offset == GIGABYTE_OFFSET then XML_OFFSET else 0) ==>
              var dev, base := reader.device.value, sections.offset;
              device == Stored(dev, base, Laundered(dev, base, image, resize, macOf), storageSize)
  {
    device := LaunderMac(reader, resize, macOf, sections.xmlOffset, image);
    if storageSize.Some? {
      var _, stored := ReadTail(reader, sections.offset, device, storageSize.value);
      device := stored;
    }
  }

  method ReadFound(reader: FRUReader, resize: bool, macOf: seq<byte> -> seq<byte>, sections: FruSections,
                   storageSize: Option<nat>) returns (device: seq<byte>)
    requires reader.Valid() && (storageSize.Some? ==> storageSize.value <= ADDRESS_LIMIT)
    requires |sections.header| == CACHE_BLOCK && sections.offset <= TYAN_OFFSET && sections.xmlOffset in {0, XML_OFFSET}
    modifies reader
    ensures reader.Valid()
    ensures reader.device.Some? && sections == SectionsAt(reader.device.value, sections.offset) ==>
              HandedOut(reader.device.value, sections.offset, resize, macOf, storageSize, device)
  {
    var ok, image := ReadImage(reader, sections.offset, sections.header);
    device := [];
    if ok {
      device := HandOut(reader, resize, macOf, sections, image, storageSize);
    }
  }

  method ReadFRUContents(reader: FRUReader, resize: bool, macOf: seq<byte> -> seq<byte>, storageSize: Option<nat>)
    returns (device: seq<byte>, found: bool)
    requires reader.Valid() && (storageSize.Some? ==> storageSize.value <= ADDRESS_LIMIT)
    modifies reader
    ensures reader.Valid()
    ensures reader.device.Some? ==> Outcome(reader.device.value, resize, macOf, storageSize, device, found)
  {
    var sections := FindFRUHeader(reader, 0);
    found := sections.Some?;
    device := [];
    if found {
      device := ReadFound(reader, resize, macOf, sections.value, storageSize);
    }
  }

  lemma SliceNext(dev: seq<byte>, base: nat, front: seq<byte>, next: seq<byte>)
    requires Slice(dev, base, |front|) <= front && Slice(dev, base + |front|, |next|) <= next
    ensures Slice(dev, base, |front| + |next|) <= front + next
  {
  }

  /** The rest of the image, in pieces the buffer can hold. */
  method ReadBody(reader: FRUReader, base: nat, header: seq<byte>, length: nat) returns (ok: bool, device: seq<byte>)
    requires reader.Valid() && base <= TYAN_OFFSET && |header| == HEADER <= length <= 0x20000
    modifies reader
    ensures reader.Valid() && |device| <= length && (ok ==> |device| == length && device[..HEADER] == header)
    ensures reader.device.Some? ==>
              ok && (Slice(reader.device.value, base, HEADER) <= header ==>
                Slice(reader.device.value, base, length) <= device)
  {
    device := header;
    var blockData := Blank();
    var fruLength, readOffset := length - HEADER, HEADER;
    while fruLength > 0
      invariant reader.Valid() && |blockData| == CACHE_BLOCK
      invariant |device| == readOffset && readOffset + fruLength == length && fruLength >= 0
      invariant HEADER <= readOffset && device[..HEADER] == header
      invariant reader.device.Some? && Slice(reader.device.value, base, HEADER) <= header ==>
                  Slice(reader.device.value, base, readOffset) <= device
    {
      var requestLength := if CACHE_BLOCK < fruLength then CACHE_BLOCK else fruLength;
      ok, blockData := ReadBlock(reader, base + readOffset, requestLength, blockData);
      if !ok {
        return false, device;
      }
      if reader.device.Some? && Slice(reader.device.value, base, readOffset) <= device {
        SliceNext(reader.device.value, base, device, blockData[..requestLength]);
      }
      device := device + blockData[..requestLength];
      readOffset, fruLength := readOffset + requestLength, fruLength - requestLength;
    }
    ok := true;
  }

  /** Everything behind the image up to the end of the storage. */
  method ReadTail(reader: FRUReader, base: nat, image: seq<byte>, storageSize: nat)
    returns (ok: bool, device: seq<byte>)
    requires reader.Valid() && storageSize <= ADDRESS_LIMIT
    modifies reader
    ensures reader.Valid()
    ensures reader.device.Some? ==> device == Stored(reader.device.value, base, image, Some(storageSize))
  {
    ok, device := false, [];
    if storageSize < base {
      return;
    }
    var availableSize := storageSize - base;
    if availableSize < |image| {
      return;
    }
    var remaining := availableSize - |image|;
    if remaining == 0 {
      return true, image;
    }
    var bytesRead, tail := reader.Read(base + |image|, remaining);
    if bytesRead != remaining {
      return;
    }
    ok, device := true, image + tail;
  }

  lemma AssembledHeader(areas: seq<seq<byte>>, dev: seq<byte>)
    requires |areas| == 5 && Aligned(areas) && Addressable(areas) && Image(areas) <= dev
    ensures FruBase(dev) == Some(0) && Increasing(HeaderBlock(dev, 0))
  {
    var img, h := Image(areas), HeaderBlock(dev, 0);
    ImageHeader(areas);
    AssembledHeaderValid(areas);
    assert h[..8] == dev[..8] == img[..8];
    SameHeader(img, h);
    forall i, j | 0 <= i < j < 5 && OffsetByte(img, i) != 0 && OffsetByte(img, j) != 0
      ensures OffsetByte(img, i) < OffsetByte(img, j)
    {
      HeaderOffset(areas, i);
      HeaderOffset(areas, j);
    }
  }

  lemma SameHeader(a: seq<byte>, b: seq<byte>)
    requires HEADER <= |a| && HEADER <= |b| && a[..HEADER] == b[..HEADER]
    ensures ValidHeader(a) <==> ValidHeader(b)
    ensures Increasing(a) <==> Increasing(b)
    ensures forall i :: 0 <= i < 5 ==> OffsetByte(a, i) == OffsetByte(b, i)
  {
    assert a[..7] == a[..HEADER][..7] == b[..7];
    assert forall i :: 0 <= i < HEADER ==> a[i] == a[..HEADER][i] == b[i];
    assert forall i :: 0 <= i < 5 ==> OffsetByte(a, i) == OffsetByte(b, i);
  }

  /** Behind an assembled image's header byte stands an area as long as its length byte says. */
  lemma AssembledLength(areas: seq<seq<byte>>, dev: seq<byte>, i: nat)
    requires |areas| == 5 && Aligned(areas) && Addressable(areas) && Measured(areas)
    requires Image(areas) <= dev && 1 <= i < 4 && areas[i] != []
    ensures var s := Start(areas, i);
            s + 2 <= |dev| && s + dev[s + 1] * BLOCK == Start(areas, i + 1)
  {
    var s, m := Start(areas, i), |areas[i]|;
    AreaInImage(areas, i);
    assert Image(areas)[s..s + m][1] == dev[s + 1];
    StartsGrow(areas, i, i + 1);
  }

  lemma AssembledOffset(areas: seq<seq<byte>>, dev: seq<byte>, i: nat)
    requires |areas| == 5 && Aligned(areas) && Addressable(areas) && Image(areas) <= dev && i < 5
    ensures OffsetByte(HeaderBlock(dev, 0), i) * BLOCK == if areas[i] == [] then 0 else Start(areas, i)
  {
    ImageHeader(areas);
    assert dev[..8] == Image(areas)[..8];
    SameHeader(Image(areas), HeaderBlock(dev, 0));
    assert OffsetByte(Image(areas), i) == HeaderByte(areas, i);
    HeaderOffset(areas, i);
  }

  /** The end of Internal, whose second byte the reader takes for a length. */
  function InternalEnd(areas: seq<seq<byte>>): (r: nat)
    requires |areas| == 5 && Aligned(areas)
    ensures r >= HEADER
  {
    HEADER + if areas[0] == [] then 0 else areas[0][1] * BLOCK
  }

  /** The end of the last info area among the first `n` areas. */
  function InfoEnd(areas: seq<seq<byte>>, n: nat): nat
    requires n <= |areas|
  {
    if n <= 1 then HEADER else if areas[n - 1] == [] then InfoEnd(areas, n - 1) else Start(areas, n)
  }

  /** Where the last area ends on a device: the record list if there is one. */
  function LastEnd(areas: seq<seq<byte>>, dev: seq<byte>): Option<nat>
    requires |areas| == 5
  {
    if areas[4] == [] then Some(InfoEnd(areas, 4)) else RecordsEnd(dev, 0, Start(areas, 4))
  }

  lemma {:induction false} InfoEndStart(areas: seq<seq<byte>>, n: nat)
    requires n <= |areas|
    ensures InfoEnd(areas, n) <= Start(areas, n)
  {
    if n > 1 {
      InfoEndStart(areas, n - 1);
      StartsGrow(areas, n - 1, n);
    }
  }

  lemma AreasEndNext(dev: seq<byte>, h: seq<byte>, n: nat, end: nat, next: nat)
    requires HEADER <= |h| && n < 4 && AreasEnd(dev, 0, h, n) == Some(end)
    requires var o := OffsetByte(h, n) * BLOCK;
             if o == 0 then next == end else o + 2 <= |dev| && Max(o + dev[o + 1] * BLOCK, end) == next
    ensures AreasEnd(dev, 0, h, n + 1) == Some(next)
  {
  }

  lemma InternalByte(areas: seq<seq<byte>>, dev: seq<byte>)
    requires |areas| == 5 && Aligned(areas) && Addressable(areas) && areas[0] != [] && Image(areas) <= dev
    ensures Start(areas, 0) == HEADER && HEADER + 2 <= |dev| && dev[HEADER + 1] == areas[0][1]
  {
    AreaInImage(areas, 0);
    assert areas[..0] == [];
    assert Image(areas)[HEADER..HEADER + |areas[0]|][1] == dev[HEADER + 1];
  }

  lemma InfoEndNext(areas: seq<seq<byte>>, dev: seq<byte>, n: nat, end: nat)
    requires |areas| == 5 && Aligned(areas) && Addressable(areas) && Measured(areas)
    requires Image(areas) <= dev && 1 <= n < 4
    ensures areas[n] == [] ==> InfoEnd(areas, n + 1) == InfoEnd(areas, n)
    ensures areas[n] != [] ==>
              var s := Start(areas, n);
              s + 2 <= |dev|
                && Max(s + dev[s + 1] * BLOCK, Max(end, InfoEnd(areas, n))) == Max(end, InfoEnd(areas, n + 1))
  {
    InfoEndStart(areas, n);
    StartsGrow(areas, n, n + 1);
    if areas[n] != [] {
      AssembledLength(areas, dev, n);
    }
  }

  lemma {:induction false} AssembledAreasEnd(areas: seq<seq<byte>>, dev: seq<byte>, n: nat)
    requires |areas| == 5 && Aligned(areas) && Addressable(areas) && Measured(areas)
    requires Image(areas) <= dev && 1 <= n <= 4
    ensures AreasEnd(dev, 0, HeaderBlock(dev, 0), n) == Some(Max(InternalEnd(areas), InfoEnd(areas, n)))
  {
    AssembledOffset(areas, dev, n - 1);
    if n == 1 {
      if areas[0] != [] {
        InternalByte(areas, dev);
      }
      AreasEndNext(dev, HeaderBlock(dev, 0), 0, HEADER, InternalEnd(areas));
    } else {
      AssembledAreasEnd(areas, dev, n - 1);
      InfoEndNext(areas, dev, n - 1, InternalEnd(areas));
      AreasEndNext(dev, HeaderBlock(dev, 0), n - 1, Max(InternalEnd(areas), InfoEnd(areas, n - 1)),
                   Max(InternalEnd(areas), InfoEnd(areas, n)));
    }
  }

  /** The record list of a device's prefix is that of the device. */
  lemma {:induction false} RecordsPrefix(img: seq<byte>, dev: seq<byte>, offset: nat)
    requires img <= dev && RecordsEnd(img, 0, offset).Some?
    ensures RecordsEnd(dev, 0, offset) == RecordsEnd(img, 0, offset)
    decreases RECORD_LIMIT - offset
  {
    if offset < RECORD_LIMIT && img[offset + 1] < 0x80 {
      RecordsPrefix(img, dev, offset + img[offset + 2] + 5);
    }
  }

  /** A record list that goes on behind the image ends behind it. */
  lemma {:induction false} RecordsBeyond(img: seq<byte>, dev: seq<byte>, offset: nat)
    requires img <= dev && RecordsEnd(img, 0, offset).None? && RecordsEnd(dev, 0, offset).Some?
    ensures RecordsEnd(dev, 0, offset).value > |img|
    decreases RECORD_LIMIT - offset
  {
    if offset + 3 <= |img| {
      RecordsBeyond(img, dev, offset + img[offset + 2] + 5);
    }
  }

  /** For a device starting with an assembled image the header is found at 0, and the extent is where
      the last area ends, or Internal by the byte taken for its length. */
  lemma AssembledExtent(areas: seq<seq<byte>>, dev: seq<byte>)
    requires |areas| == 5 && Aligned(areas) && Addressable(areas) && Measured(areas) && Image(areas) <= dev
    ensures FruBase(dev) == Some(0) && Increasing(HeaderBlock(dev, 0))
    ensures Extent(dev, 0)
         == match LastEnd(areas, dev) case None => None case Some(last) => Some(Max(InternalEnd(areas), last))
  {
    AssembledHeader(areas, dev);
    AssembledAreasEnd(areas, dev, 4);
    AssembledOffset(areas, dev, 4);
    InfoEndStart(areas, 4);
  }

  /** What is read ends with the image: the last area does, and Internal, read that way, not later. */
  predicate EndsWithImage(areas: seq<seq<byte>>)
    requires |areas| == 5 && Aligned(areas)
  {
    var last := LastEnd(areas, Image(areas));
    last.Some? && Max(InternalEnd(areas), last.value) == |Image(areas)|
  }

  /** The end of the record list is the same on a device the image starts, or behind the image. */
  lemma LastEndOnDevice(areas: seq<seq<byte>>, dev: seq<byte>)
    requires |areas| == 5 && Aligned(areas) && Image(areas) <= dev && LastEnd(areas, dev).Some?
    ensures EndsWithImage(areas) <==> Max(InternalEnd(areas), LastEnd(areas, dev).value) == |Image(areas)|
  {
    if areas[4] != [] {
      if LastEnd(areas, Image(areas)).Some? {
        RecordsPrefix(Image(areas), dev, Start(areas, 4));
      } else {
        RecordsBeyond(Image(areas), dev, Start(areas, 4));
      }
    }
  }

  /** The outcome for an image that starts the device. */
  lemma OutcomeAtZero(dev: seq<byte>, n: nat, resize: bool, macOf: seq<byte> -> seq<byte>, contents: seq<byte>,
                      found: bool)
    requires FruBase(dev) == Some(0) && Increasing(HeaderBlock(dev, 0)) && Extent(dev, 0) == Some(n) && n <= |dev|
    ensures Outcome(dev, resize, macOf, None, contents, found) <==> found && contents == dev[..n]
    ensures Outcome(dev, resize, macOf, Some(|dev|), contents, found) <==> found && contents == dev
  {
    assert dev[0..n] == dev[..n] && dev[..n] + Slice(dev, n, |dev| - n) == dev;
    assert forall image :: ImageIs(dev, 0, image) <==> image == dev[..n];
    assert Laundered(dev, 0, dev[..n], resize, macOf) == dev[..n];
  }

  /** What the read returns for such a device: exactly the image; with the storage size given, the
      whole device. */
  lemma ReadBack(areas: seq<seq<byte>>, dev: seq<byte>, resize: bool, macOf: seq<byte> -> seq<byte>,
                 contents: seq<byte>, found: bool)
    requires |areas| == 5 && Aligned(areas) && Addressable(areas) && Measured(areas)
    requires Image(areas) <= dev && EndsWithImage(areas)
    ensures Outcome(dev, resize, macOf, None, contents, found) <==> found && contents == Image(areas)
    ensures Outcome(dev, resize, macOf, Some(|dev|), contents, found) <==> found && contents == dev
  {
    AssembledExtent(areas, dev);
    if areas[4] != [] {
      RecordsPrefix(Image(areas), dev, Start(areas, 4));
    }
    OutcomeAtZero(dev, |Image(areas)|, resize, macOf, contents, found);
  }

  /** The image comes back exactly if what is read ends with it. */
  lemma ReadBackExactly(areas: seq<seq<byte>>, dev: seq<byte>, resize: bool, macOf: seq<byte> -> seq<byte>,
                        contents: seq<byte>, found: bool)
    requires |areas| == 5 && Aligned(areas) && Addressable(areas) && Measured(areas) && Image(areas) <= dev
    requires LastEnd(areas, dev).Some? && Outcome(dev, resize, macOf, None, contents, found)
    ensures contents == Image(areas) <==> EndsWithImage(areas)
  {
    AssembledExtent(areas, dev);
    LastEndOnDevice(areas, dev);
    OutcomeLength(dev, resize, macOf, contents, found);
    if EndsWithImage(areas) {
      OutcomeAtZero(dev, |Image(areas)|, resize, macOf, contents, found);
    }
  }

  lemma OutcomeLength(dev: seq<byte>, resize: bool, macOf: seq<byte> -> seq<byte>, contents: seq<byte>, found: bool)
    requires FruBase(dev) == Some(0) && Increasing(HeaderBlock(dev, 0)) && Extent(dev, 0).Some?
    requires Outcome(dev, resize, macOf, None, contents, found)
    ensures |contents| == Extent(dev, 0).value
  {
  }

  /** Without a MultiRecord area, and with Internal absent or followed by an info area, the image comes
      back exactly if Internal, read that way, does not end behind the image. */
  lemma InternalFits(areas: seq<seq<byte>>)
    requires |areas| == 5 && Aligned(areas) && areas[4] == []
    requires areas[0] != [] ==> exists i :: 1 <= i < 4 && areas[i] != []
    ensures EndsWithImage(areas) <==> InternalEnd(areas) <= |Image(areas)|
  {
    ImageHeader(areas);
    StartsGrow(areas, 4, 5);
    LastInfoEnd(areas, 4);
  }

  lemma {:induction false} LastInfoEnd(areas: seq<seq<byte>>, n: nat)
    requires n <= |areas| && (n > 0 && areas[0] != [] ==> exists i :: 1 <= i < n && areas[i] != [])
    ensures InfoEnd(areas, n) == Start(areas, n)
  {
    if n == 0 {
      assert areas[..0] == [];
    } else {
      StartsGrow(areas, n - 1, n);
      if n == 1 || areas[n - 1] == [] {
        LastInfoEnd(areas, n - 1);
      }
    }
  }
}
