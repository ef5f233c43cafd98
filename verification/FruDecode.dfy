/** Decoding a FRU image into named values: fields, areas, and the whole image. */
module FruDecode {
  import opened Bytes
  import opened FruFields
  import opened FruNames
  import opened SixBit

  datatype DecodeState = Ok | End | Err
  datatype ResCode = ResOk | ResWarn | ResErr

  /** What a report entry is about. Its printed form is "<AREA>_<FIELD>", "MAC_<AREA>_<FIELD>", and so on. */
  datatype Key =
    | FormatVersion
    | ChassisType
    | LanguageCode(area: Area)
    | ManufactureDate
    | Entry(area: Area, index: nat)
    | MacOf(area: Area, index: nat)
    | MultirecordUuid

  datatype Value = Text(bytes: seq<byte>) | Number(n: nat) | Minutes(total: nat)

  type Report = map<Key, Value>

  function HexDigit(d: nat): byte
    requires d < 16
  {
    if d < 10 then 48 + d else 87 + d
  }

  function HexText(data: seq<byte>): (s: seq<byte>)
    ensures |s| == 2 * |data|
  {
    if data == [] then []
    else HexText(data[..|data| - 1]) + [HexDigit(data[|data| - 1] / 16), HexDigit(data[|data| - 1] % 16)]
  }

  function BcdPlusToChar(val: nat): byte
    requires val < 16
  {
    if val < 10 then 48 + val else if val == 10 then 32 else if val == 11 then 45 else if val == 12 then 46 else 88
  }

  function BcdText(data: seq<byte>): seq<byte> {
    if data == [] then []
    else BcdText(data[..|data| - 1]) + [BcdPlusToChar(data[|data| - 1] / 16), BcdPlusToChar(data[|data| - 1] % 16)]
  }

  /** The text of a field: the top two bits of its type/length byte choose binary, BCD plus, 6-bit
      ASCII, or 8-bit text. */
  function FieldText(f: Field): seq<byte> {
    if f.typeLen < 64 then HexText(f.data)
    else if f.typeLen < 128 then BcdText(f.data)
    else if f.typeLen < 192 then SixBitText(f.data)
    else f.data
  }

  /** The digits, in order. */
  lemma DigitsInOrder(d: nat)
    requires d < 16
    ensures HexDigit(d) == "0123456789abcdef"[d] as int && BcdPlusToChar(d) == "0123456789 -.XXX"[d] as int
  {
  }

  /** Two digits for every byte, the high half's first. */
  lemma {:induction false} TwoDigits(data: seq<byte>, i: nat)
    requires i < |data|
    ensures |BcdText(data)| == 2 * |data|
    ensures HexText(data)[2 * i] == HexDigit(data[i] / 16) && HexText(data)[2 * i + 1] == HexDigit(data[i] % 16)
    ensures BcdText(data)[2 * i] == BcdPlusToChar(data[i] / 16)
    ensures BcdText(data)[2 * i + 1] == BcdPlusToChar(data[i] % 16)
  {
    var init := data[..|data| - 1];
    if init == [] {
      assert BcdText(init) == [] && HexText(init) == [];
    } else {
      TwoDigits(init, if i < |init| then i else 0);
    }
  }

  /** The two top bits of the type/length byte choose the form of the text. */
  lemma TextForms(f: Field)
    ensures f.typeLen / 64 == 0 ==> FieldText(f) == HexText(f.data)
    ensures f.typeLen / 64 == 1 ==> FieldText(f) == BcdText(f.data)
    ensures f.typeLen / 64 == 2 ==> FieldText(f) == SixBitText(f.data)
    ensures f.typeLen / 64 == 3 ==> FieldText(f) == f.data
  {
  }

  method DecodeHex(data: seq<byte>) returns (value: seq<byte>)
    ensures value == HexText(data)
  {
    value := [];
    var i := 0;
    while i < |data|
      invariant i <= |data| && value == HexText(data[..i])
    {
      assert data[..i + 1][..i] == data[..i];
      value := value + [HexDigit(data[i] / 16), HexDigit(data[i] % 16)];
      i := i + 1;
    }
    assert data[..i] == data;
  }

  method DecodeBcd(data: seq<byte>) returns (value: seq<byte>)
    ensures value == BcdText(data)
  {
    value := [];
    var i := 0;
    while i < |data|
      invariant i <= |data| && value == BcdText(data[..i])
    {
      assert data[..i + 1][..i] == data[..i];
      value := value + [BcdPlusToChar(data[i] / 16), BcdPlusToChar(data[i] % 16)];
      i := i + 1;
    }
    assert data[..i] == data;
  }

  /** A field at the front of `s` that can be decoded: complete, and not text in a language other
      than English. */
  predicate Decodable(s: seq<byte>, eng: bool) {
    FieldFirst(s) && (eng || s[0] < 192)
  }

  lemma SubSlice(area: seq<byte>, iter: nat, end: nat, n: nat)
    requires 1 <= n && iter + n <= end <= |area|
    ensures area[iter..end][1..n] == area[iter + 1..iter + n]
  {
    var x, y := area[iter..end][1..n], area[iter + 1..iter + n];
    assert forall j :: 0 <= j < n - 1 ==> x[j] == area[iter..end][1 + j] == area[iter + 1 + j] == y[j];
  }

  lemma FrontSlices(area: seq<byte>, iter: nat, next: nat, end: nat)
    requires iter < end <= |area| && FieldFirst(area[iter..end]) && next == iter + 1 + LengthOf(area[iter])
    ensures next <= end && area[next..end] == AfterField(area[iter..end])
    ensures Field(area[iter], area[iter + 1..next]) == FrontField(area[iter..end])
  {
    var s, n := area[iter..end], 1 + LengthOf(area[iter]);
    assert s[0] == area[iter];
    SubSlice(area, iter, end, n);
  }

  method DecodeFRUData(area: seq<byte>, iter: nat, end: nat, isLangEng: bool)
    returns (state: DecodeState, value: seq<byte>, next: nat)
    requires iter <= end <= |area|
    ensures iter <= next <= end
    ensures state.Ok? <==> Decodable(area[iter..end], isLangEng)
    ensures state.Ok? ==>
              && area[next..end] == AfterField(area[iter..end])
              && value == FieldText(FrontField(area[iter..end]))
    ensures state.End? <==> iter < end && area[iter] == END_OF_FIELDS
    ensures state.End? ==> next == iter + 1
  {
    value, next := [], iter;
    if iter == end {
      return Err, value, next;
    }
    var c := area[iter];
    next := iter + 1;
    if c == END_OF_FIELDS {
      return End, value, next;
    }
    var len := LengthOf(c);
    if next + len > end {
      return Err, value, next;
    }
    var data := area[next..next + len];
    next := next + len;
    FrontSlices(area, iter, next, end);
    if c < 64 {
      value := DecodeHex(data);
    } else if c < 128 {
      value := DecodeBcd(data);
    } else if c < 192 {
      value := DecodeSixBit(data);
    } else {
      value := data;
      if !isLangEng {
        return Err, value, next;
      }
    }
    state := Ok;
  }

  /** `t` is `s` without its trailing spaces and NULs. */
  predicate StripsTo(s: seq<byte>, t: seq<byte>) {
    && t <= s && (forall i :: |t| <= i < |s| ==> s[i] in {0, 32})
    && (t != [] ==> t[|t| - 1] !in {0, 32})
  }

  function Trim(s: seq<byte>): (t: seq<byte>)
    ensures StripsTo(s, t)
  {
    if s != [] && (s[|s| - 1] == 0 || s[|s| - 1] == 32) then Trim(s[..|s| - 1]) else s
  }

  /** The report has `text` under `key`, without its trailing spaces and NULs. */
  predicate Reads(report: Report, key: Key, text: seq<byte>) {
    key in report && report[key].Text? && StripsTo(text, report[key].bytes)
  }

  const MAC_PREFIX: seq<byte> := [77, 65, 67, 58, 32]

  /** The entries field `i` of an area produces. */
  function EntryReport(a: Area, i: nat, text: seq<byte>): Report {
    (if i >= FieldCount(a) && MAC_PREFIX <= text then map[MacOf(a, i) := Text(text[5..])] else map[])
    + map[Entry(a, i) := Text(text)]
  }

  /** The reported text of a field. */
  function TextOf(f: Field): seq<byte> {
    Trim(FieldText(f))
  }

  /** The result of walking the fields of an area: code, entries, and the bytes behind the marker. */
  datatype FieldScan = FieldScan(code: ResCode, report: Report, tail: seq<byte>)

  function ScanFields(text: Field -> seq<byte>, a: Area, s: seq<byte>, i: nat, eng: bool): FieldScan
    decreases |s|
  {
    if Decodable(s, eng) then
      var r := ScanFields(text, a, AfterField(s), i + 1, eng);
      FieldScan(r.code, EntryReport(a, i, text(FrontField(s))) + r.report, r.tail)
    else ScanStop(a, s, i)
  }

  /** The walk stops: at the marker, or on something it cannot decode. */
  function ScanStop(a: Area, s: seq<byte>, i: nat): FieldScan {
    if s != [] && s[0] == END_OF_FIELDS then
      FieldScan(if i < FieldCount(a) then ResWarn else ResOk, map[], s[1..])
    else
      FieldScan(if i < FieldCount(a) then ResErr else ResWarn, map[], [])
  }

  function Worse(c: ResCode, d: ResCode): ResCode {
    if c.ResErr? || d.ResErr? then ResErr else if c.ResWarn? || d.ResWarn? then ResWarn else ResOk
  }

  lemma EntryMerge(before: Report, a: Area, i: nat, text: seq<byte>)
    ensures before + EntryReport(a, i, text) ==
            (if i >= FieldCount(a) && MAC_PREFIX <= text then before[MacOf(a, i) := Text(text[5..])] else before)
            [Entry(a, i) := Text(text)]
  {
  }

  method DecodeField(area: seq<byte>, iter: nat, end: nat, fieldIndex: nat, isLangEng: bool, a: Area, before: Report)
    returns (ret: ResCode, next: nat, index: nat, state: DecodeState, result: Report)
    requires iter <= end <= |area|
    ensures iter <= next <= end
    ensures state.Ok? <==> Decodable(area[iter..end], isLangEng)
    ensures state.Ok? ==>
              && ret == ResOk && index == fieldIndex + 1 && area[next..end] == AfterField(area[iter..end])
              && result == before + EntryReport(a, fieldIndex, TextOf(FrontField(area[iter..end])))
    ensures state.Ok? ==> Reads(result, Entry(a, fieldIndex), FieldText(FrontField(area[iter..end])))
    ensures state.Err? ==> ret == if fieldIndex < FieldCount(a) then ResErr else ResWarn
    ensures state.End? ==> ret == if fieldIndex < FieldCount(a) then ResWarn else ResOk
    ensures !state.Ok? ==>
              && index == fieldIndex && result == before
              && var stop := ScanStop(a, area[iter..end], fieldIndex);
                 ret == stop.code && (ret == ResOk ==> area[next..end] == stop.tail)
  {
    var value;
    state, value, next := DecodeFRUData(area, iter, end, isLangEng);
    result, index := before, fieldIndex;
    var isCustomField := fieldIndex >= FieldCount(a);
    if state.Ok? {
      value := Trim(value);
      EntryMerge(before, a, fieldIndex, value);
      if isCustomField && MAC_PREFIX <= value {
        result := result[MacOf(a, fieldIndex) := Text(value[5..])];
      }
      result := result[Entry(a, fieldIndex) := Text(value)];
      index := index + 1;
      ret := ResOk;
    } else if state.Err? {
      ret := if isCustomField then ResWarn else ResErr;
    } else {
      ret := if isCustomField then ResOk else ResWarn;
      assert area[iter..end][1..] == area[next..end];
    }
  }

  lemma MergeAssoc(a: Report, b: Report, c: Report)
    ensures a + (b + c) == (a + b) + c
  {
  }

  /** The rest of a walk, `scan`, on top of what is already reported. */
  function Finish(before: Report, scan: FieldScan): FieldScan {
    FieldScan(scan.code, before + scan.report, scan.tail)
  }

  lemma FinishStep(text: Field -> seq<byte>, a: Area, s: seq<byte>, i: nat, eng: bool, before: Report)
    ensures Decodable(s, eng) ==>
              Finish(before, ScanFields(text, a, s, i, eng)) ==
              Finish(before + EntryReport(a, i, text(FrontField(s))), ScanFields(text, a, AfterField(s), i + 1, eng))
    ensures !Decodable(s, eng) ==>
              var stop := ScanStop(a, s, i);
              Finish(before, ScanFields(text, a, s, i, eng)) == FieldScan(stop.code, before, stop.tail)
  {
    if Decodable(s, eng) {
      MergeAssoc(before, EntryReport(a, i, text(FrontField(s))), ScanFields(text, a, AfterField(s), i + 1, eng).report);
    }
  }

  /** What is to come of a walk that has reported `result` so far and goes on at field `i` of `s`. */
  predicate GoesOn(s: seq<byte>, a: Area, i: nat, eng: bool, result: Report, all: FieldScan) {
    Finish(result, ScanFields(TextOf, a, s, i, eng)) == all
  }

  /** One turn of the field loop of `formatIPMIFRU`. */
  method DecodeTurn(area: seq<byte>, iter: nat, end: nat, fieldIndex: nat, isLangEng: bool, a: Area, before: Report,
                    ghost all: FieldScan)
    returns (ret: ResCode, next: nat, index: nat, state: DecodeState, result: Report)
    requires iter <= end <= |area| && GoesOn(area[iter..end], a, fieldIndex, isLangEng, before, all)
    ensures iter <= next <= end && (state.Ok? ==> iter < next)
    ensures state.Ok? ==> ret == ResOk && GoesOn(area[next..end], a, index, isLangEng, result, all)
    ensures !state.Ok? ==> ret == all.code && result == all.report && (ret == ResOk ==> area[next..end] == all.tail)
  {
    FinishStep(TextOf, a, area[iter..end], fieldIndex, isLangEng, before);
    ret, next, index, state, result := DecodeField(area, iter, end, fieldIndex, isLangEng, a, before);
  }

  method DecodeFields(area: seq<byte>, start: nat, end: nat, isLangEng: bool, a: Area, before: Report)
    returns (ret: ResCode, next: nat, result: Report)
    requires start <= end <= |area|
    ensures var r := Finish(before, ScanFields(TextOf, a, area[start..end], 0, isLangEng));
            && ret == r.code
            && result == r.report
            && next <= end && (ret == ResOk ==> area[next..end] == r.tail)
  {
    ret, next, result := ResOk, start, before;
    var fieldIndex, state := 0, Ok;
    ghost var all := Finish(before, ScanFields(TextOf, a, area[start..end], 0, isLangEng));
    while state.Ok?
      invariant next <= end
      invariant state.Ok? ==> ret == ResOk && GoesOn(area[next..end], a, fieldIndex, isLangEng, result, all)
      invariant !state.Ok? ==> ret == all.code && result == all.report && (ret == ResOk ==> area[next..end] == all.tail)
      decreases state.Ok?, end - next
    {
      var decodeRet;
      decodeRet, next, fieldIndex, state, result := DecodeTurn(area, next, end, fieldIndex, isLangEng, a, result, all);
      if decodeRet.ResErr? {
        return ResErr, next, result;
      }
      if decodeRet.ResWarn? {
        ret := decodeRet;
      }
    }
  }
}
