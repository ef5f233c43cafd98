/** Boards that keep their FRU image where the vendor likes, and the MAC address a Gigabyte board has in
    its XML. */
module FruGigabyte {
  import opened Bytes
  import opened FruNames
  import opened FruEdit
  import opened FruImage
  import opened FruDecode
  import opened FruFormat
  import opened FruUpdate
  import opened FruEditDecode
  import opened FruKeys
  import opened FruLayout
  import Decimals
  import opened FruReader
  import opened FruReadBack

  /** The device starts with the letters of `mark`. */
  predicate StartsWith(dev: seq<byte>, mark: string) {
    |mark| <= |dev| && forall i :: 0 <= i < |mark| ==> dev[i] == mark[i] as int
  }

  lemma FirstBytes(dev: seq<byte>)
    requires |dev| >= 8
    ensures forall i :: 0 <= i < 8 ==> HeaderBlock(dev, 0)[i] == dev[i]
  {
    assert Slice(dev, 0, HEADER) == dev[..8];
    assert HeaderBlock(dev, 0)[..8] == dev[..8];
  }

  /** A device with TYAN's mark has its image at 0x6000 if anywhere, one with Gigabyte's at 0x4000. */
  lemma VendorPlaces(dev: seq<byte>)
    requires |dev| >= 8
    ensures StartsWith(dev, "$TYAN$") ==>
              FruBase(dev) == if ValidHeader(HeaderBlock(dev, 0x6000)) then Some(0x6000) else None
    ensures StartsWith(dev, "GIGABYTE") ==>
              FruBase(dev) == if ValidHeader(HeaderBlock(dev, 0x4000)) then Some(0x4000) else None
    ensures !StartsWith(dev, "$TYAN$") && !StartsWith(dev, "GIGABYTE") ==>
              FruBase(dev) == if ValidHeader(HeaderBlock(dev, 0)) then Some(0) else None
  {
    FirstBytes(dev);
    var first := HeaderBlock(dev, 0);
    assert StartsWith(dev, "$TYAN$") ==> TYAN <= first && first[0] == 36;
    assert StartsWith(dev, "GIGABYTE") ==> GIGABYTE <= first && first[0] == 71;
  }

  /** The XML lies behind the first 512 bytes, in as many as 32768. */
  lemma XmlPlace(dev: seq<byte>, macOf: seq<byte> -> seq<byte>)
    requires |dev| >= 512 + 32768
    ensures XmlMac(dev, macOf) == macOf(dev[512..512 + 32768])
  {
    assert Filled(Zeros(XML_SIZE), Slice(dev, XML_OFFSET, XML_SIZE)) == dev[512..512 + 32768];
  }

  lemma MacFieldName()
    ensures FieldName(Board, 6) == "BOARD_INFO_AM2" == MAC_FIELD
    ensures AreaOf("BOARD_INFO_AM2") == Some(Board) && TargetIndex(Board, "BOARD_INFO_AM2") == Some(6)
  {
    CustomNames(1);
    assert Decimals.ToDecimal(2) == "2";
    assert "BOARD_" + ("INFO_AM" + "2") == "BOARD_INFO_AM2";
    FieldNameResolves(Board, 6);
  }

  /** An edit of a custom field can be made, and the image is parsed without error before and after. */
  predicate Takes(image: seq<byte>, a: Area, name: string, value: seq<byte>) {
    && |image| > HEADER && FormatCode(image) != ResErr && MultirecordLast(image)
    && AreaOf(name) == Some(a) && Updatable(true, image, name, value)
    && EditableArea(a, Disassembled(image).value)
    && Fits(a, UpdatedAreas(image, name, value))
    && EndsLong(a, Disassembled(image).value, name, value)
  }

  function After(image: seq<byte>, a: Area, name: string, value: seq<byte>): Report
    requires Takes(image, a, name, value)
  {
    FormatReport(Image(UpdatedAreas(image, name, value)))
  }

  lemma TrimWhole(value: seq<byte>)
    requires value != [] && value[|value| - 1] !in {0, 32}
    ensures Trim(value) == value
  {
  }

  lemma AfterEntry(image: seq<byte>, a: Area, name: string, k: nat, value: seq<byte>, key: Key)
    requires Takes(image, a, name, value) && TargetIndex(a, name) == Some(k)
    requires key == Entry(a, k) || key == MacOf(a, k)
    ensures var base := BaseArea(a, Disassembled(image).value);
            && |base| >= 8 && WellFormed(a, base)
            && Get(After(image, a, name, value), key) == AreaAfter(a, base, k, value, key)
  {
    OfField(a, k);
    EditThenDecode(image, name, value, key);
  }

  lemma MacAfter(a: Area, base: seq<byte>, k: nat, mac: seq<byte>, value: seq<byte>)
    requires |base| >= 8 && WellFormed(a, base) && LegalLength(value) && FieldCount(a) <= k
    requires value == [77, 65, 67, 58, 32] + mac && mac != [] && mac[|mac| - 1] !in {0, 32}
    ensures AreaAfter(a, base, k, value, Entry(a, k)) == Some(Text(value))
    ensures AreaAfter(a, base, k, value, MacOf(a, k)) == Some(Text(mac))
  {
    EditedEntry(a, base, k, value);
    TrimWhole(value);
    assert value[5..] == mac;
  }

  /** A MAC address in a custom field is found in the field and by itself. */
  lemma MacEntries(r: Report, a: Area, base: seq<byte>, k: nat, mac: seq<byte>, value: seq<byte>)
    requires |base| >= 8 && WellFormed(a, base) && LegalLength(value) && FieldCount(a) <= k
    requires value == [77, 65, 67, 58, 32] + mac && mac != [] && mac[|mac| - 1] !in {0, 32}
    requires Get(r, Entry(a, k)) == AreaAfter(a, base, k, value, Entry(a, k))
    requires Get(r, MacOf(a, k)) == AreaAfter(a, base, k, value, MacOf(a, k))
    requires AllReported(r) && InfoArea(a)
    ensures Prints(r, FieldName(a, k), Text(value)) && Prints(r, "MAC_" + FieldName(a, k), Text(mac))
  {
    MacAfter(a, base, k, mac, value);
    PrintedKey(r, Entry(a, k), Text(value));
    PrintedKey(r, MacOf(a, k), Text(mac));
    EntryName(a, k);
  }

  lemma MacPrints(image: seq<byte>, a: Area, name: string, k: nat, mac: seq<byte>, value: seq<byte>)
    requires value == [77, 65, 67, 58, 32] + mac && mac != [] && mac[|mac| - 1] !in {0, 32} && InfoArea(a)
    requires Takes(image, a, name, value) && TargetIndex(a, name) == Some(k) && FieldCount(a) <= k
    ensures Prints(After(image, a, name, value), FieldName(a, k), Text(value))
    ensures Prints(After(image, a, name, value), "MAC_" + FieldName(a, k), Text(mac))
  {
    AfterEntry(image, a, name, k, value, Entry(a, k));
    AfterEntry(image, a, name, k, value, MacOf(a, k));
    FormatReported(Image(UpdatedAreas(image, name, value)));
    MacEntries(After(image, a, name, value), a, BaseArea(a, Disassembled(image).value), k, mac, value);
  }

  lemma MacNames()
    ensures "MAC_" + "BOARD_INFO_AM2" == "MAC_BOARD_INFO_AM2"
  {
  }

  /** The MAC address of a board that can take it is reported twice: with "MAC: " in front in the field
      it was written to, and by itself where the rest of the system looks for it. */
  lemma MacIsReported(image: seq<byte>, mac: seq<byte>, report: Report)
    requires mac != [] && mac[|mac| - 1] !in {0, 32} && Takes(image, Board, MAC_FIELD, [77, 65, 67, 58, 32] + mac)
    requires report == FormatReport(MacWritten(true, image, mac))
    ensures Prints(report, "BOARD_INFO_AM2", Text([77, 65, 67, 58, 32] + mac))
    ensures Prints(report, "MAC_BOARD_INFO_AM2", Text(mac))
  {
    MacFieldName();
    MacNames();
    WrittenIsAfter(image, mac);
    MacPrints(image, Board, MAC_FIELD, 6, mac, [77, 65, 67, 58, 32] + mac);
  }

  lemma WrittenIsAfter(image: seq<byte>, mac: seq<byte>)
    requires mac != [] && Takes(image, Board, MAC_FIELD, [77, 65, 67, 58, 32] + mac)
    ensures FormatReport(MacWritten(true, image, mac)) == After(image, Board, MAC_FIELD, [77, 65, 67, 58, 32] + mac)
  {
  }
}
