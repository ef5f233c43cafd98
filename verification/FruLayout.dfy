/** Info areas byte by byte: the layouts of sections 10 to 12, what they are decoded to, and what an edit
    makes of them. */
module FruLayout {
  import opened Bytes
  import opened FruFields
  import opened FruNames
  import opened FruEdit
  import opened FruDecode
  import opened FruFormat
  import opened FruUpdate
  import opened FruEditDecode
  import opened FruKeys
  import Decimals

  /** A list of fields behind which decoding stops: at the end marker, at a field that is cut off, or,
      in another language than English, at text. */
  predicate Stops(english: bool, fs: seq<Field>, rest: seq<byte>) {
    && AllValid(fs)
    && (english || forall i :: 0 <= i < |fs| ==> fs[i].typeLen < 192)
    && (rest == [] || rest[0] == 0xC1 || 1 + rest[0] % 64 > |rest| || (!english && rest[0] >= 192))
  }

  /** The verdict on an area of `count` listed fields: `sum` is the sum of its bytes. */
  function CodeOf(fs: seq<Field>, count: nat, rest: seq<byte>, sum: nat): ResCode {
    if rest != [] && rest[0] == 0xC1 then
      if |fs| >= count && sum % 256 == 0 && (forall i :: 1 <= i < |rest| ==> rest[i] == 0) then ResOk else ResWarn
    else if |fs| < count then ResErr
    else ResWarn
  }

  /** Decoding the list and what stops it, from field `i` on. */
  predicate Scanned(text: Field -> seq<byte>, a: Area, fs: seq<Field>, rest: seq<byte>, i: nat, eng: bool) {
    var r, stop := ScanFields(text, a, Encode(fs) + rest, i, eng), ScanStop(a, rest, i + |fs|);
    r.code == stop.code && r.tail == stop.tail && r.report == FieldsReport(text, a, fs, i)
  }

  lemma ScannedMore(text: Field -> seq<byte>, a: Area, f: Field, fs: seq<Field>, rest: seq<byte>, i: nat, eng: bool)
    requires ValidField(f) && (eng || f.typeLen < 192) && Scanned(text, a, fs, rest, i + 1, eng)
    ensures Scanned(text, a, [f] + fs, rest, i, eng)
  {
    EncodeCons(f, fs);
    Assoc(FieldBytes(f), Encode(fs), rest);
    ScanOne(text, a, f, Encode(fs) + rest, i, eng);
    FieldsReportCons(text, a, f, fs, i);
  }

  lemma {:induction false} ScanEncoded(text: Field -> seq<byte>, a: Area, fs: seq<Field>, rest: seq<byte>, i: nat,
                                       eng: bool)
    requires Stops(eng, fs, rest)
    ensures Scanned(text, a, fs, rest, i, eng)
    decreases |fs|
  {
    if fs == [] {
      assert Encode(fs) + rest == rest;
      if rest != [] {
        LowSixBits(rest[0]);
      }
      assert !Decodable(rest, eng);
    } else {
      ScanEncoded(text, a, fs[1..], rest, i + 1, eng);
      ScannedMore(text, a, fs[0], fs[1..], rest, i, eng);
      assert [fs[0]] + fs[1..] == fs;
    }
  }

  lemma ScanOne(text: Field -> seq<byte>, a: Area, f: Field, w: seq<byte>, i: nat, eng: bool)
    requires ValidField(f) && (eng || f.typeLen < 192)
    ensures var r, more := ScanFields(text, a, FieldBytes(f) + w, i, eng), ScanFields(text, a, w, i + 1, eng);
            r.code == more.code && r.tail == more.tail && r.report == EntryReport(a, i, text(f)) + more.report
  {
    FieldInFront(f, w);
  }

  lemma FieldInFront(f: Field, w: seq<byte>)
    requires ValidField(f)
    ensures var s := FieldBytes(f) + w; FieldFirst(s) && FrontField(s) == f && AfterField(s) == w && s[0] == f.typeLen
  {
    var s, n := FieldBytes(f) + w, 1 + |f.data|;
    assert s[1..n] == f.data && s[n..] == w;
  }

  lemma StoppedCode(a: Area, fs: seq<Field>, rest: seq<byte>, sum: nat, eng: bool)
    requires Stops(eng, fs, rest)
    ensures var stop := ScanStop(a, rest, |fs|);
            CodeOf(fs, FieldCount(a), rest, sum) ==
            if stop.code.ResOk? && (sum % 256 != 0 || !AllZero(stop.tail)) then ResWarn else stop.code
  {
    if rest != [] && rest[0] == 0xC1 {
      assert forall i :: 1 <= i < |rest| ==> rest[i] == rest[1..][i - 1];
    }
  }

  lemma SumLast(b: seq<byte>)
    requires b != []
    ensures b[|b| - 1] == CalculateChecksum(Body(b)) <==> Sum(b) % 256 == 0
  {
    assert Body(b) + [b[|b| - 1]] == b;
    ChecksumZeroesTheSum(Body(b));
    if Sum(b) % 256 == 0 {
      ChecksumIsUnique(Body(b), b[|b| - 1]);
    }
  }

  /** The bytes of an area, taken apart. */
  lemma AreaPieces(front: seq<byte>, fields: seq<byte>, rest: seq<byte>, cs: byte)
    ensures var b := front + fields + rest + [cs];
            b != [] && Body(b)[|front|..] == fields + rest && forall i :: 0 <= i < |front| ==> b[i] == front[i]
  {
    var b := front + fields + rest + [cs];
    assert Body(b) == front + (fields + rest);
  }

  lemma AreaScanned(a: Area, front: seq<byte>, fs: seq<Field>, rest: seq<byte>, cs: byte, eng: bool)
    requires |front| == FirstField(a) && |front| + |Encode(fs)| + |rest| >= 7 && Stops(eng, fs, rest)
    requires eng == (a.Chassis? || CheckLangEng(front[2]))
    ensures var b := front + Encode(fs) + rest + [cs];
            && |b| >= 8 && AreaScan(a, b) == ScanFields(TextOf, a, Encode(fs) + rest, 0, eng)
  {
    AreaPieces(front, Encode(fs), rest, cs);
  }

  /** The report of an area: its header, and one text for every field. */
  lemma AreaReads(a: Area, front: seq<byte>, fs: seq<Field>, rest: seq<byte>, cs: byte, eng: bool)
    requires InfoArea(a) && |front| == FirstField(a) && |front| + |Encode(fs)| + |rest| >= 7 && Stops(eng, fs, rest)
    requires eng == (a.Chassis? || CheckLangEng(front[2]))
    ensures var b := front + Encode(fs) + rest + [cs];
            && |b| >= 8 && AreaCode(a, b) == CodeOf(fs, FieldCount(a), rest, Sum(b))
            && AreaReport(a, b) == HeaderReport(a, b) + FieldsReport(TextOf, a, fs, 0)
  {
    AreaScanned(a, front, fs, rest, cs, eng);
    ScanEncoded(TextOf, a, fs, rest, 0, eng);
    CodeOfScan(a, front + Encode(fs) + rest + [cs], fs, rest, eng);
  }

  lemma CodeOfScan(a: Area, b: seq<byte>, fs: seq<Field>, rest: seq<byte>, eng: bool)
    requires |b| >= 8 && Stops(eng, fs, rest)
    requires var stop := ScanStop(a, rest, |fs|); AreaScan(a, b).code == stop.code && AreaScan(a, b).tail == stop.tail
    ensures AreaCode(a, b) == CodeOf(fs, FieldCount(a), rest, Sum(b))
  {
    StoppedCode(a, fs, rest, Sum(b), eng);
    SumLast(b);
  }

  /** `r`, printed, has the value under the name. */
  predicate Prints(r: Report, name: string, value: Value) {
    AllReported(r) && Lookup(Printed(r), name) == Some(value)
  }

  /** `r`, printed, has the text under the name, without its trailing spaces and NULs. */
  ghost predicate PrintsText(r: Report, name: string, text: seq<byte>) {
    AllReported(r) && exists t :: StripsTo(text, t) && Prints(r, name, Text(t))
  }

  /** Every field of the list is printed under its name; a custom field that spells a MAC address gives
      an entry of its own. */
  ghost predicate PrintsFields(r: Report, a: Area, fs: seq<Field>, count: nat) {
    && (forall i :: 0 <= i < |fs| ==> PrintsText(r, FieldName(a, i), FieldText(fs[i])))
    && (forall i, mac :: count <= i < |fs| && StripsTo(FieldText(fs[i]), [77, 65, 67, 58, 32] + mac) ==>
          Prints(r, "MAC_" + FieldName(a, i), Text(mac)))
  }

  lemma StripsUnique(s: seq<byte>, t: seq<byte>, u: seq<byte>)
    requires StripsTo(s, t) && StripsTo(s, u)
    ensures t == u
  {
    assert u != [] ==> u[|u| - 1] == s[|u| - 1];
    assert t != [] ==> t[|t| - 1] == s[|t| - 1];
  }

  lemma PrintedKey(r: Report, key: Key, value: Value)
    requires AllReported(r) && Reported(key) && Get(r, key) == Some(value)
    ensures Prints(r, KeyName(key), value)
  {
    PrintedLookup(r, key);
  }

  lemma TextPrinted(r: Report, a: Area, i: nat, text: seq<byte>)
    requires InfoArea(a) && AllReported(r) && Get(r, Entry(a, i)) == Some(Text(Trim(text)))
    ensures PrintsText(r, FieldName(a, i), text)
  {
    PrintedKey(r, Entry(a, i), Text(Trim(text)));
    EntryName(a, i);
    assert StripsTo(text, Trim(text));
  }

  lemma EntryName(a: Area, i: nat)
    ensures KeyName(Entry(a, i)) == FieldName(a, i)
    ensures KeyName(MacOf(a, i)) == "MAC_" + FieldName(a, i)
  {
  }

  lemma MacPrinted(r: Report, a: Area, i: nat, text: seq<byte>, mac: seq<byte>)
    requires InfoArea(a) && AllReported(r) && FieldCount(a) <= i && StripsTo(text, [77, 65, 67, 58, 32] + mac)
    requires Get(r, MacOf(a, i)) == FieldEntry(a, i, Trim(text), MacOf(a, i))
    ensures Prints(r, "MAC_" + FieldName(a, i), Text(mac))
  {
    StripsUnique(text, Trim(text), [77, 65, 67, 58, 32] + mac);
    assert ([77, 65, 67, 58, 32] + mac)[5..] == mac;
    PrintedKey(r, MacOf(a, i), Text(mac));
    EntryName(a, i);
  }

  lemma FieldsPrinted(r: Report, a: Area, fs: seq<Field>, header: Report)
    requires InfoArea(a) && AllReported(r) && r == header + FieldsReport(TextOf, a, fs, 0)
    requires forall key: Key :: key in header ==> !key.Entry? && !key.MacOf?
    ensures PrintsFields(r, a, fs, FieldCount(a))
  {
    forall i | 0 <= i < |fs| ensures PrintsText(r, FieldName(a, i), FieldText(fs[i])) {
      TextEntry(TextOf, r, a, fs, header, i);
      TextPrinted(r, a, i, FieldText(fs[i]));
    }
    forall i, mac | FieldCount(a) <= i < |fs| && StripsTo(FieldText(fs[i]), [77, 65, 67, 58, 32] + mac)
      ensures Prints(r, "MAC_" + FieldName(a, i), Text(mac))
    {
      MacEntry(TextOf, r, a, fs, header, i);
      MacPrinted(r, a, i, FieldText(fs[i]), mac);
    }
  }

  lemma TextEntry(text: Field -> seq<byte>, r: Report, a: Area, fs: seq<Field>, header: Report, i: nat)
    requires r == header + FieldsReport(text, a, fs, 0) && Entry(a, i) !in header && i < |fs|
    ensures Get(r, Entry(a, i)) == Some(Text(text(fs[i])))
  {
    HeaderAndList(header, text, a, fs, Entry(a, i));
  }

  lemma MacEntry(text: Field -> seq<byte>, r: Report, a: Area, fs: seq<Field>, header: Report, i: nat)
    requires r == header + FieldsReport(text, a, fs, 0) && MacOf(a, i) !in header && i < |fs|
    ensures Get(r, MacOf(a, i)) == FieldEntry(a, i, text(fs[i]), MacOf(a, i))
  {
    HeaderAndList(header, text, a, fs, MacOf(a, i));
  }

  lemma HeaderPrinted(a: Area, b: seq<byte>, fs: seq<Field>, key: Key, value: Value)
    requires InfoArea(a) && |b| >= 8 && AreaReport(a, b) == HeaderReport(a, b) + FieldsReport(TextOf, a, fs, 0)
    requires AllReported(AreaReport(a, b)) && !key.Entry? && !key.MacOf? && Reported(key)
    requires Get(HeaderReport(a, b), key) == Some(value)
    ensures Prints(AreaReport(a, b), KeyName(key), value)
  {
    FieldsReportEntries(TextOf, a, 0, fs, key);
    GetMerged(HeaderReport(a, b), FieldsReport(TextOf, a, fs, 0), key);
    PrintedKey(AreaReport(a, b), key, value);
  }

  lemma AreaAllReported(a: Area, b: seq<byte>)
    requires InfoArea(a) && |b| >= 8
    ensures AllReported(AreaReport(a, b))
  {
    PartReported(Index(a), b);
  }

  /** Minutes since 1996, dates before 2006 read as dates after 2027. */
  function DateOf(m0: byte, m1: byte, m2: byte): Value {
    var minutes := m0 as int + 256 * m1 + 65536 * m2;
    Minutes(if minutes < 3653 * 24 * 60 then minutes + 0x100_0000 else minutes)
  }

  /** A Board area (section 11): version, length, language, three bytes of date, then the fields. */
  lemma BoardArea(len: byte, lang: byte, m0: byte, m1: byte, m2: byte, fs: seq<Field>, rest: seq<byte>, cs: byte)
    requires Stops(lang in {0, 25}, fs, rest) && |Encode(fs)| + |rest| >= 1
    ensures var b := [1, len, lang, m0, m1, m2] + Encode(fs) + rest + [cs];
            && |b| >= 8 && AreaCode(Board, b) == CodeOf(fs, 5, rest, Sum(b))
            && Prints(AreaReport(Board, b), "BOARD_LANGUAGE_CODE", Number(lang))
            && Prints(AreaReport(Board, b), "BOARD_MANUFACTURE_DATE", DateOf(m0, m1, m2))
            && PrintsFields(AreaReport(Board, b), Board, fs, 5)
  {
    var front := [1, len, lang, m0, m1, m2];
    var b := front + Encode(fs) + rest + [cs];
    AreaPieces(front, Encode(fs), rest, cs);
    AreaReads(Board, front, fs, rest, cs, lang in {0, 25});
    AreaAllReported(Board, b);
    FieldsPrinted(AreaReport(Board, b), Board, fs, HeaderReport(Board, b));
    BoardHeader(b, fs);
  }

  lemma BoardHeader(b: seq<byte>, fs: seq<Field>)
    requires |b| >= 8 && AllReported(AreaReport(Board, b))
    requires AreaReport(Board, b) == HeaderReport(Board, b) + FieldsReport(TextOf, Board, fs, 0)
    ensures Prints(AreaReport(Board, b), "BOARD_LANGUAGE_CODE", Number(b[2]))
    ensures Prints(AreaReport(Board, b), "BOARD_MANUFACTURE_DATE", DateOf(b[3], b[4], b[5]))
  {
    BoardValues(b);
    HeaderPrinted(Board, b, fs, LanguageCode(Board), Number(b[2]));
    HeaderPrinted(Board, b, fs, ManufactureDate, DateOf(b[3], b[4], b[5]));
    BoardLanguageName();
    DateName();
  }

  lemma BoardValues(b: seq<byte>)
    requires |b| >= 8
    ensures Get(HeaderReport(Board, b), LanguageCode(Board)) == Some(Number(b[2]))
    ensures Get(HeaderReport(Board, b), ManufactureDate) == Some(DateOf(b[3], b[4], b[5]))
  {
  }

  lemma BoardLanguageName()
    ensures KeyName(LanguageCode(Board)) == "BOARD_LANGUAGE_CODE"
  {
  }

  lemma DateName()
    ensures KeyName(ManufactureDate) == "BOARD_MANUFACTURE_DATE"
  {
  }

  lemma TypeName()
    ensures KeyName(ChassisType) == "CHASSIS_TYPE"
  {
  }

  lemma LanguageName()
    ensures KeyName(LanguageCode(Product)) == "PRODUCT_LANGUAGE_CODE"
  {
  }

  /** A Chassis area (section 10): version, length, type, then the fields, always in English. */
  lemma ChassisArea(len: byte, kind: byte, fs: seq<Field>, rest: seq<byte>, cs: byte)
    requires Stops(true, fs, rest) && |Encode(fs)| + |rest| >= 4
    ensures var b := [1, len, kind] + Encode(fs) + rest + [cs];
            && |b| >= 8 && AreaCode(Chassis, b) == CodeOf(fs, 2, rest, Sum(b))
            && Prints(AreaReport(Chassis, b), "CHASSIS_TYPE", Number(kind))
            && PrintsFields(AreaReport(Chassis, b), Chassis, fs, 2)
  {
    var front := [1, len, kind];
    var b := front + Encode(fs) + rest + [cs];
    AreaPieces(front, Encode(fs), rest, cs);
    AreaReads(Chassis, front, fs, rest, cs, true);
    AreaAllReported(Chassis, b);
    FieldsPrinted(AreaReport(Chassis, b), Chassis, fs, HeaderReport(Chassis, b));
    HeaderPrinted(Chassis, b, fs, ChassisType, Number(kind));
    TypeName();
  }

  /** A Product area (section 12): version, length, language, then the fields. */
  lemma ProductArea(len: byte, lang: byte, fs: seq<Field>, rest: seq<byte>, cs: byte)
    requires Stops(lang in {0, 25}, fs, rest) && |Encode(fs)| + |rest| >= 4
    ensures var b := [1, len, lang] + Encode(fs) + rest + [cs];
            && |b| >= 8 && AreaCode(Product, b) == CodeOf(fs, 7, rest, Sum(b))
            && Prints(AreaReport(Product, b), "PRODUCT_LANGUAGE_CODE", Number(lang))
            && PrintsFields(AreaReport(Product, b), Product, fs, 7)
  {
    var front := [1, len, lang];
    var b := front + Encode(fs) + rest + [cs];
    AreaPieces(front, Encode(fs), rest, cs);
    AreaReads(Product, front, fs, rest, cs, lang in {0, 25});
    AreaAllReported(Product, b);
    FieldsPrinted(AreaReport(Product, b), Product, fs, HeaderReport(Product, b));
    HeaderPrinted(Product, b, fs, LanguageCode(Product), Number(lang));
    LanguageName();
  }

  // ---- editing ----

  /** `gs` is `fs` with the value in field `k`, and empty fields in front of that where there were none. */
  predicate Edits(fs: seq<Field>, k: nat, value: seq<byte>, gs: seq<Field>) {
    && |gs| == (if |fs| <= k then k + 1 else |fs|)
    && forall i :: 0 <= i < |gs| ==>
         gs[i].typeLen == (if i == k then 0xC0 + |value| else if i < |fs| then fs[i].typeLen else 0xC0)
         && gs[i].data == if i == k then value else if i < |fs| then fs[i].data else []
  }

  lemma AreaSpells(a: Area, front: seq<byte>, fs: seq<Field>, tail: seq<byte>)
    requires InfoArea(a) && |front| == FirstField(a) && AllValid(fs) && tail != []
    ensures var b := front + Encode(fs) + [0xC1] + tail; WellFormed(a, b) && FieldsOf(a, b) == fs
  {
    CutPieces(front, Encode(fs), [0xC1] + tail);
    var b := front + Encode(fs) + [0xC1] + tail;
    assert b == front + Encode(fs) + ([0xC1] + tail);
    assert b[|front|..|front| + |Encode(fs)|] == Encode(fs);
    SpellsClosed(b, |front|, fs);
  }

  /** An area whose fields are `gs`, written out. */
  lemma AreaWritten(h: nat, b: seq<byte>, gs: seq<Field>) returns (tail: seq<byte>)
    requires Closed(b, h) && Fields(Body(b)[h..]) == gs
    ensures tail != [] && b == b[..h] + Encode(gs) + [0xC1] + tail
  {
    WholeWalk(b, h);
    tail := Rest(b[h..])[1..];
    assert Rest(b[h..]) == [0xC1] + tail;
    assert b == b[..h] + b[h..];
  }

  lemma AreaEdited(a: Area, front: seq<byte>, fs: seq<Field>, tail: seq<byte>, name: string, value: seq<byte>)
    returns (gs: seq<Field>, tail': seq<byte>)
    requires InfoArea(a) && |front| == FirstField(a) && AllValid(fs) && tail != []
    requires Settable(true, a, front + Encode(fs) + [0xC1] + tail, name, value)
    ensures TargetIndex(a, name).Some? && Edits(fs, TargetIndex(a, name).value, value, gs)
    ensures var out := Edited(a, front + Encode(fs) + [0xC1] + tail, name, value);
            Written(out, front[1 := |out| / 8 % 256], gs, tail')
  {
    var b := front + Encode(fs) + [0xC1] + tail;
    var out := Edited(a, b, name, value);
    AreaSpells(a, front, fs, tail);
    EditIsListUpdate(a, b, name, value);
    gs := Update(fs, TargetIndex(a, name).value, ValueField(value));
    tail' := AreaWritten(FirstField(a), out, gs);
    FrontKept(front, b, out);
  }

  lemma FrontKept(front: seq<byte>, b: seq<byte>, out: seq<byte>)
    requires 2 <= |front| <= |out| && front <= b && out[1] == |out| / 8 % 256
    requires forall i :: 0 <= i < |front| && i != 1 ==> out[i] == b[i]
    ensures out[..|front|] == front[1 := |out| / 8 % 256]
  {
  }

  /** `out` is an area written out behind the header `front`, in whole blocks and with a sum of zero. */
  predicate Written(out: seq<byte>, front: seq<byte>, gs: seq<Field>, tail: seq<byte>) {
    && out == front + Encode(gs) + [0xC1] + tail && tail != []
    && |out| % 8 == 0 && Sum(out) % 256 == 0
  }

  /** Editing a Board area keeps language and date and the six bytes in front. */
  lemma BoardEdited(b: seq<byte>, len: byte, lang: byte, m0: byte, m1: byte, m2: byte, fs: seq<Field>, tail: seq<byte>,
                    name: string, value: seq<byte>)
    returns (gs: seq<Field>, tail': seq<byte>, blocks: byte)
    requires AllValid(fs) && tail != [] && b == [1, len, lang, m0, m1, m2] + Encode(fs) + [0xC1] + tail
    requires Settable(true, Board, b, name, value)
    ensures TargetIndex(Board, name).Some? && Edits(fs, TargetIndex(Board, name).value, value, gs)
    ensures blocks == |Edited(Board, b, name, value)| / 8 % 256
    ensures Written(Edited(Board, b, name, value), [1, blocks, lang, m0, m1, m2], gs, tail')
  {
    gs, tail' := AreaEdited(Board, [1, len, lang, m0, m1, m2], fs, tail, name, value);
    blocks := |Edited(Board, b, name, value)| / 8 % 256;
    NewLength([1, len, lang, m0, m1, m2], blocks);
  }

  lemma NewLength(front: seq<byte>, len: byte)
    requires |front| >= 2
    ensures |front| == 6 ==> front[1 := len] == [front[0], len, front[2], front[3], front[4], front[5]]
    ensures |front| == 3 ==> front[1 := len] == [front[0], len, front[2]]
  {
  }

  /** Editing a Chassis or Product area keeps type or language and the three bytes in front. */
  lemma OtherEdited(a: Area, b: seq<byte>, len: byte, code: byte, fs: seq<Field>, tail: seq<byte>, name: string,
                    value: seq<byte>)
    returns (gs: seq<Field>, tail': seq<byte>, blocks: byte)
    requires (a.Chassis? || a.Product?) && AllValid(fs) && tail != []
    requires b == [1, len, code] + Encode(fs) + [0xC1] + tail && Settable(true, a, b, name, value)
    ensures TargetIndex(a, name).Some? && Edits(fs, TargetIndex(a, name).value, value, gs)
    ensures blocks == |Edited(a, b, name, value)| / 8 % 256
    ensures Written(Edited(a, b, name, value), [1, blocks, code], gs, tail')
  {
    gs, tail' := AreaEdited(a, [1, len, code], fs, tail, name, value);
    blocks := |Edited(a, b, name, value)| / 8 % 256;
    NewLength([1, len, code], blocks);
  }

  /** A fresh area: version, length, no header bytes set, `n` empty fields, the end marker, padding. */
  predicate Fresh(b: seq<byte>, header: nat, n: nat, padding: nat) {
    && |b| == 2 + header + n + 1 + padding && b[0] == 1 && b[1] == (|b| + 1) / 8 % 256
    && (forall i :: 2 <= i < 2 + header ==> b[i] == 0)
    && (forall i :: 2 + header <= i < 2 + header + n ==> b[i] == 0xC0)
    && b[2 + header + n] == 0xC1
    && forall i :: 2 + header + n < i < |b| ==> b[i] == 0
  }

  lemma BlankBytesOf(h: nat, n: nat)
    requires h >= 2
    ensures var s := Blank(h, n);
            && |s| == h + n + 2 && EndMarker(s) == Some(h + n) && s[0] == 1 && s[h + n] == 0xC1 && s[h + n + 1] == 0
            && (forall i :: 1 <= i < h ==> s[i] == 0) && (forall i :: h <= i < h + n ==> s[i] == 0xC0)
  {
    BlankSpells(h, n);
    EmptyFieldBytes(n);
    assert Blank(h, n) == [1] + seq(h - 1, _ => 0) + seq(n, _ => 0xC0) + [0xC1, 0];
  }

  lemma SealedBody(s: seq<byte>, e: nat, len: nat)
    requires EndMarker(s) == Some(e) && |s| <= len == GetBlockCount(e + 1) * 8
    ensures |Body(Sealed(s))| == len - 1
    ensures forall i :: 0 <= i < len - 1 ==>
              Body(Sealed(s))[i] == if i == 1 then len / 8 % 256 else if i < |s| then s[i] else 0
  {
    var blocks := GetBlockCount(e + 1);
    var r := Resize(s, len)[1 := blocks % 256];
    assert Body(Sealed(s)) == r[..len - 1];
  }

  lemma FreshArea(h: nat, n: nat, padding: nat)
    requires h >= 2 && GetBlockCount(h + n + 1) * 8 == h + n + padding + 2
    ensures EndMarker(Blank(h, n)).Some? && Fresh(Body(Sealed(Blank(h, n))), h - 2, n, padding)
  {
    BlankBytesOf(h, n);
    SealedBody(Blank(h, n), h + n, h + n + padding + 2);
    FreshBytes(Blank(h, n), Body(Sealed(Blank(h, n))), h, n, padding);
  }

  lemma FreshBytes(s: seq<byte>, b: seq<byte>, h: nat, n: nat, padding: nat)
    requires h >= 2 && |s| == h + n + 2 && |b| == h + n + padding + 1
    requires s[0] == 1 && s[h + n] == 0xC1 && s[h + n + 1] == 0
    requires (forall i :: 1 <= i < h ==> s[i] == 0) && (forall i :: h <= i < h + n ==> s[i] == 0xC0)
    requires forall i :: 0 <= i < |b| ==>
               b[i] == if i == 1 then (|b| + 1) / 8 % 256 else if i < |s| then s[i] else 0
    ensures Fresh(b, h - 2, n, padding)
  {
  }

  /** The areas an edit can create: no header bytes set, and an empty field for every listed one. */
  lemma FreshChassis()
    ensures Fresh(Body(DummyArea(Chassis)), 1, 2, 1)
  {
    FreshAreaOf(Chassis, 1);
  }

  lemma FreshBoard()
    ensures Fresh(Body(DummyArea(Board)), 4, 5, 3)
  {
    FreshAreaOf(Board, 3);
  }

  lemma FreshProduct()
    ensures Fresh(Body(DummyArea(Product)), 1, 7, 4)
  {
    FreshAreaOf(Product, 4);
  }

  lemma FreshAreaOf(a: Area, padding: nat)
    requires InfoArea(a)
    requires GetBlockCount(FirstField(a) + FieldCount(a) + 1) * 8 == FirstField(a) + FieldCount(a) + padding + 2
    ensures Fresh(Body(DummyArea(a)), FirstField(a) - 2, FieldCount(a), padding)
  {
    FreshArea(FirstField(a), FieldCount(a), padding);
  }

  // ---- names ----

  /** The names the listed fields are printed under. */
  lemma ChassisNames()
    ensures FieldName(Chassis, 0) == "CHASSIS_PART_NUMBER"
    ensures FieldName(Chassis, 1) == "CHASSIS_SERIAL_NUMBER"
  {
  }

  lemma BoardFieldNames()
    ensures FieldName(Board, 0) == "BOARD_MANUFACTURER"
    ensures FieldName(Board, 1) == "BOARD_PRODUCT_NAME"
    ensures FieldName(Board, 2) == "BOARD_SERIAL_NUMBER"
  {
  }

  lemma MoreBoardFieldNames()
    ensures FieldName(Board, 3) == "BOARD_PART_NUMBER"
    ensures FieldName(Board, 4) == "BOARD_FRU_VERSION_ID"
  {
  }

  lemma ProductNames()
    ensures FieldName(Product, 0) == "PRODUCT_MANUFACTURER"
    ensures FieldName(Product, 1) == "PRODUCT_PRODUCT_NAME"
    ensures FieldName(Product, 2) == "PRODUCT_PART_NUMBER"
    ensures FieldName(Product, 3) == "PRODUCT_VERSION"
  {
  }

  lemma MoreProductNames()
    ensures FieldName(Product, 4) == "PRODUCT_SERIAL_NUMBER"
    ensures FieldName(Product, 5) == "PRODUCT_ASSET_TAG"
    ensures FieldName(Product, 6) == "PRODUCT_FRU_VERSION_ID"
  {
  }

  /** The fields behind them are numbered from one. */
  lemma CustomNames(n: nat)
    ensures FieldName(Chassis, 2 + n) == "CHASSIS_" + ("INFO_AM" + Decimals.ToDecimal(n + 1))
    ensures FieldName(Board, 5 + n) == "BOARD_" + ("INFO_AM" + Decimals.ToDecimal(n + 1))
    ensures FieldName(Product, 7 + n) == "PRODUCT_" + ("INFO_AM" + Decimals.ToDecimal(n + 1))
  {
    CustomName(Chassis, n, "CHASSIS");
    CustomName(Board, n, "BOARD");
    CustomName(Product, n, "PRODUCT");
  }

  lemma CustomName(a: Area, n: nat, name: string)
    requires AreaName(a) == name
    ensures FieldName(a, |FieldNames(a)| + n) == name + "_" + ("INFO_AM" + Decimals.ToDecimal(n + 1))
  {
  }
}
