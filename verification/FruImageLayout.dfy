/** Whole images byte by byte: the common header of section 8, and which area reports what. */
module FruImageLayout {
  import opened Bytes
  import opened FruNames
  import opened FruImage
  import opened FruDecode
  import opened FruFormat
  import opened FruEditDecode

  /** The header byte of an area that starts at `start`. */
  function Place(area: seq<byte>, start: nat): byte {
    if area == [] then 0 else start / 8 % 256
  }

  lemma FlatFive(areas: seq<seq<byte>>)
    requires |areas| == 5
    ensures Flat(areas) == areas[0] + areas[1] + areas[2] + areas[3] + areas[4]
    ensures Start(areas, 0) == 8 && Start(areas, 1) == 8 + |areas[0]|
    ensures Start(areas, 2) == 8 + |areas[0]| + |areas[1]|
    ensures Start(areas, 3) == 8 + |areas[0]| + |areas[1]| + |areas[2]|
    ensures Start(areas, 4) == 8 + |areas[0]| + |areas[1]| + |areas[2]| + |areas[3]|
  {
    assert areas[..5] == areas && areas[..0] == [];
    assert Flat(areas[..1]) == areas[0];
    FlatMore(areas, 1);
    FlatMore(areas, 2);
    FlatMore(areas, 3);
    FlatMore(areas, 4);
  }

  lemma FlatMore(areas: seq<seq<byte>>, n: nat)
    requires n < |areas|
    ensures Flat(areas[..n + 1]) == Flat(areas[..n]) + areas[n]
  {
    assert areas[..n + 1][..n] == areas[..n];
  }

  /** The image: version, the places of Internal, Chassis, Board, Product and MultiRecord in blocks, a zero
      byte, a byte that brings the eight to zero, and the areas in that order. */
  lemma ImageBytes(internal: seq<byte>, chassis: seq<byte>, board: seq<byte>, product: seq<byte>, multi: seq<byte>)
    returns (header: seq<byte>)
    ensures |header| == 8 && Sum(header) % 256 == 0
    ensures header[0] == 1 && header[6] == 0
    ensures header[1] == Place(internal, 8)
    ensures header[2] == Place(chassis, 8 + |internal|)
    ensures header[3] == Place(board, 8 + |internal| + |chassis|)
    ensures header[4] == Place(product, 8 + |internal| + |chassis| + |board|)
    ensures header[5] == Place(multi, 8 + |internal| + |chassis| + |board| + |product|)
    ensures Image([internal, chassis, board, product, multi]) == header + (internal + chassis + board + product + multi)
  {
    var areas := [internal, chassis, board, product, multi];
    FlatFive(areas);
    header := Header(areas);
    ChecksumZeroesTheSum(HeaderBody(areas));
    assert forall i :: 0 <= i < 5 ==> header[1 + i] == HeaderByte(areas, i);
  }

  /** The second area is decoded as Chassis, the third as Board, the fourth as Product. */
  lemma PartsInOrder(b: seq<byte>)
    requires |b| >= 8
    ensures PartReport(1, b) == AreaReport(Chassis, b) && PartCode(1, b) == AreaCode(Chassis, b)
    ensures PartReport(2, b) == AreaReport(Board, b) && PartCode(2, b) == AreaCode(Board, b)
    ensures PartReport(3, b) == AreaReport(Product, b) && PartCode(3, b) == AreaCode(Product, b)
  {
    PartOf(1, b);
    PartOf(2, b);
    PartOf(3, b);
    assert AREAS[1] == Chassis && AREAS[2] == Board && AREAS[3] == Product;
  }

  lemma PartOf(i: nat, b: seq<byte>)
    requires |b| >= 8 && 1 <= i < 4
    ensures PartReport(i, b) == AreaReport(AREAS[i], b) && PartCode(i, b) == AreaCode(AREAS[i], b)
  {
  }

  /** An image reports its version, what its areas report, and MultiRecord's UUID. */
  lemma WholeReport(areas: seq<seq<byte>>, fru: seq<byte>)
    requires WholeAreas(areas) && Parseable(areas) && fru == Image(areas) && |fru| > HEADER
    requires LastIsLong(areas) && AreasCode(areas, 4) != ResErr
    ensures FormatReport(fru) == AreasReport(areas, 1, 4) + UuidReport(areas[4])
  {
    FormatAssembled(areas);
  }

  /** Entry by entry: what the second area says of a chassis, the third of a board, the fourth of a
      product. */
  lemma EntriesInOrder(chassis: Report, board: Report, product: Report, areas: seq<seq<byte>>, key: Key)
    requires WholeAreas(areas) && AreasCode(areas, 4) != ResErr
    requires areas[1] != [] && areas[2] != [] && areas[3] != []
    requires chassis == AreaReport(Chassis, areas[1]) && board == AreaReport(Board, areas[2])
    requires product == AreaReport(Product, areas[3])
    ensures key.ChassisType? || (key.Entry? && key.area.Chassis?) ==>
              Get(AreasReport(areas, 1, 4) + UuidReport(areas[4]), key) == Get(chassis, key)
    ensures key.ManufactureDate? || (key.Entry? && key.area.Board?) ==>
              Get(AreasReport(areas, 1, 4) + UuidReport(areas[4]), key) == Get(board, key)
    ensures key.Entry? && key.area.Product? ==>
              Get(AreasReport(areas, 1, 4) + UuidReport(areas[4]), key) == Get(product, key)
  {
    AreasReportEntry(areas, 1, key);
    EntryByArea(areas, 1, key);
    PartsInOrder(areas[1]);
    PartsInOrder(areas[2]);
    PartsInOrder(areas[3]);
  }

  lemma {:induction false} HexConcat(a: seq<byte>, b: seq<byte>)
    ensures HexText(a + b) == HexText(a) + HexText(b)
  {
    if b == [] {
      assert a + b == a;
    } else {
      var init := b[..|b| - 1];
      assert (a + b)[..|a + b| - 1] == a + init;
      HexConcat(a, init);
    }
  }

  /** The UUID of a record whose data are `u`: three groups from their low byte to their high one, the
      others as they stand. */
  lemma UuidGroups(head: seq<byte>, u: seq<byte>, rest: seq<byte>)
    requires |head| == 6 && |u| == 16
    ensures UuidText(head + u + rest) ==
            HexText([u[3], u[2], u[1], u[0]]) + [45] + HexText([u[5], u[4]]) + [45] + HexText([u[7], u[6]]) + [45]
            + HexText(u[8..10]) + [45] + HexText(u[10..])
  {
    var s := head + u + rest;
    var order := seq(16, i requires 0 <= i < 16 => s[6 + UUID_ORDER[i]]);
    assert forall i :: 0 <= i < 16 ==> s[6 + i] == u[i];
    var a, b, c := [u[3], u[2], u[1], u[0]], [u[5], u[4]], [u[7], u[6]];
    UuidSwapped(u, order);
    FiveGroups(a, b, c, u[8..10], u[10..], HexText(order));
  }

  lemma UuidSwapped(u: seq<byte>, order: seq<byte>)
    requires |u| == 16 && |order| == 16 && forall i :: 0 <= i < 16 ==> order[i] == u[UUID_ORDER[i]]
    ensures order == [u[3], u[2], u[1], u[0]] + [u[5], u[4]] + [u[7], u[6]] + u[8..10] + u[10..]
  {
  }

  lemma FiveGroups(a: seq<byte>, b: seq<byte>, c: seq<byte>, d: seq<byte>, e: seq<byte>, hex: seq<byte>)
    requires |a| == 4 && |b| == 2 && |c| == 2 && |d| == 2 && |e| == 6 && hex == HexText(a + b + c + d + e)
    ensures |hex| == 32 && hex[..8] == HexText(a) && hex[8..12] == HexText(b) && hex[12..16] == HexText(c)
    ensures hex[16..20] == HexText(d) && hex[20..] == HexText(e)
  {
    HexConcat(a, b);
    HexConcat(a + b, c);
    HexConcat(a + b + c, d);
    HexConcat(a + b + c + d, e);
  }

  lemma RecordPieces(head: seq<byte>, data: seq<byte>, rest: seq<byte>)
    requires |head| == 5 && data != []
    ensures var s := head + data + rest;
            s[0] == head[0] && s[1] == head[1] && s[2] == head[2] && s[5] == data[0] && s[|data| + 5..] == rest
  {
    var s := head + data + rest;
    assert s[..5] == head && s[|data| + 5..] == rest;
  }

  /** The walk over the records, each with a header of five bytes: type, flags, and the length of its
      data among them. It stops at a system unique ID, which is a management access record (3) of kind
      7, and otherwise goes on behind the record unless that is marked as the last one. */
  lemma UuidWalk(head: seq<byte>, data: seq<byte>, rest: seq<byte>)
    requires |head| == 5 && head[2] == |data| >= 1 && |data| + |rest| >= 17
    ensures UuidFrom(head + data + rest) ==
            if head[0] == 3 && data[0] == 7 then Some(UuidText(head + data + rest))
            else if head[1] >= 128 then None
            else UuidFrom(rest)
  {
    RecordPieces(head, data, rest);
  }

  /** Too few bytes for a system unique ID: there is none. */
  lemma UuidTooShort(s: seq<byte>)
    requires |s| < 22
    ensures UuidFrom(s) == None
  {
  }
}
