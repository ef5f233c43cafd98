/** The strings a FRU report is keyed by. */
module FruKeys {
  import opened Bytes
  import opened FruFields
  import opened FruNames
  import opened FruEdit
  import opened FruImage
  import opened FruDecode
  import opened FruFormat
  import opened FruUpdate
  import opened FruEditDecode

  /** The keys a report can have. */
  predicate Reported(key: Key) {
    match key
    case LanguageCode(a) => a.Board? || a.Product?
    case Entry(a, _) => InfoArea(a)
    case MacOf(a, _) => InfoArea(a)
    case _ => true
  }

  /** What follows the area's name, for keys of an area. */
  function Suffix(key: Key): string {
    match key
    case ChassisType => "TYPE"
    case LanguageCode(_) => "LANGUAGE_CODE"
    case ManufactureDate => "MANUFACTURE_DATE"
    case Entry(a, i) => FieldSuffix(FieldNames(a), i)
    case _ => ""
  }

  /** The area a key is printed under, Multirecord for the keys of none. */
  function Under(key: Key): Area {
    match key
    case ChassisType => Chassis
    case LanguageCode(a) => a
    case ManufactureDate => Board
    case Entry(a, _) => a
    case _ => Multirecord
  }

  /** The key as the report has it. */
  function KeyName(key: Key): string {
    match key
    case FormatVersion => "Common_Format_Version"
    case MacOf(a, i) => "MAC_" + FieldName(a, i)
    case MultirecordUuid => "MULTIRECORD_UUID"
    case _ => AreaName(Under(key)) + "_" + Suffix(key)
  }

  predicate OfArea(key: Key) {
    !key.FormatVersion? && !key.MacOf? && !key.MultirecordUuid?
  }

  /** The fixed suffixes are no field's. */
  lemma FixedSuffix(a: Area, i: nat)
    requires InfoArea(a)
    ensures FieldSuffix(FieldNames(a), i) != "TYPE" || !a.Chassis?
    ensures FieldSuffix(FieldNames(a), i) != "LANGUAGE_CODE"
    ensures FieldSuffix(FieldNames(a), i) != "MANUFACTURE_DATE"
  {
    var fields := FieldNames(a);
    if i < |fields| {
      ListedSuffix(a, i);
    } else {
      assert FieldSuffix(fields, i)[0] == 'I';
    }
  }

  lemma ListedSuffix(a: Area, i: nat)
    requires InfoArea(a) && i < |FieldNames(a)|
    ensures FieldNames(a)[i][0] != 'L' && FieldNames(a)[i][0] != 'T' && |FieldNames(a)[i]| < 16
  {
  }

  lemma FieldSuffixes(a: Area, i: nat, j: nat)
    requires InfoArea(a) && FieldSuffix(FieldNames(a), i) == FieldSuffix(FieldNames(a), j)
    ensures i == j
  {
    FieldNameResolves(a, i);
    FieldNameResolves(a, j);
  }

  lemma SuffixesDiffer(k: Key, l: Key)
    requires Reported(k) && Reported(l) && OfArea(k) && OfArea(l) && Under(k) == Under(l) && Suffix(k) == Suffix(l)
    ensures k == l
  {
    if k.Entry? {
      FixedSuffix(k.area, k.index);
    }
    if l.Entry? {
      FixedSuffix(l.area, l.index);
    }
    if k.Entry? && l.Entry? {
      FieldSuffixes(k.area, k.index, l.index);
    }
    assert |"TYPE"| == 4 && |"LANGUAGE_CODE"| == 13 && |"MANUFACTURE_DATE"| == 16;
  }

  predicate Starts(s: string, x: char, y: char) {
    |s| >= 2 && s[0] == x && s[1] == y
  }

  /** The first two letters of a key. */
  predicate InitialsAre(key: Key, s: string) {
    match key
    case FormatVersion => Starts(s, 'C', 'o')
    case MacOf(_, _) => Starts(s, 'M', 'A')
    case MultirecordUuid => Starts(s, 'M', 'U')
    case _ => AreaStarts(Under(key), s)
  }

  lemma Initials(key: Key)
    requires Reported(key)
    ensures InitialsAre(key, KeyName(key))
  {
    match key
    case FormatVersion => FixedInitials();
    case MultirecordUuid => FixedInitials();
    case MacOf(a, i) => MacInitials(FieldName(a, i));
    case _ => OfAreaInitials(key);
  }

  lemma OfAreaInitials(key: Key)
    requires Reported(key) && OfArea(key)
    ensures AreaStarts(Under(key), KeyName(key))
  {
    var a, suffix := Under(key), Suffix(key);
    AreaInitials(a, "_" + suffix);
    assert AreaName(a) + "_" + suffix == AreaName(a) + ("_" + suffix);
  }

  lemma FixedInitials()
    ensures Starts("Common_Format_Version", 'C', 'o') && Starts("MULTIRECORD_UUID", 'M', 'U')
  {
  }

  lemma MacInitials(tail: string)
    ensures Starts("MAC_" + tail, 'M', 'A')
  {
  }

  predicate AreaStarts(a: Area, s: string) {
    || (a.Chassis? && Starts(s, 'C', 'H'))
    || (a.Board? && Starts(s, 'B', 'O'))
    || (a.Product? && Starts(s, 'P', 'R'))
  }

  lemma AreaInitials(a: Area, tail: string)
    requires InfoArea(a)
    ensures AreaStarts(a, AreaName(a) + tail)
  {
    assert Starts(AreaName(Chassis), 'C', 'H') && Starts(AreaName(Board), 'B', 'O')
           && Starts(AreaName(Product), 'P', 'R');
  }

  /** Two names under the same area. */
  lemma SameArea(k: Key, l: Key)
    requires Reported(k) && Reported(l) && OfArea(k) && OfArea(l) && Under(k) == Under(l) && KeyName(k) == KeyName(l)
    ensures k == l
  {
    SuffixMatch(AreaName(Under(k)) + "_", Suffix(k), Suffix(l));
    SuffixesDiffer(k, l);
  }

  lemma SameMac(k: Key, l: Key)
    requires Reported(k) && Reported(l) && k.MacOf? && l.MacOf? && KeyName(k) == KeyName(l)
    ensures k == l
  {
    SuffixMatch("MAC_", FieldName(k.area, k.index), FieldName(l.area, l.index));
    FieldNameResolves(k.area, k.index);
    FieldNameResolves(l.area, l.index);
  }

  /** Distinct keys are printed differently: no entry of a report overwrites another. */
  lemma KeyNamesDiffer(k: Key, l: Key)
    requires Reported(k) && Reported(l) && KeyName(k) == KeyName(l)
    ensures k == l
  {
    Initials(k);
    Initials(l);
    if OfArea(k) {
      SameArea(k, l);
    } else if k.MacOf? {
      SameMac(k, l);
    }
  }

  lemma AllNamesDiffer(report: Report)
    requires forall k :: k in report ==> Reported(k)
    ensures forall k, l :: k in report && l in report && KeyName(k) == KeyName(l) ==> k == l
  {
    forall k, l | k in report && l in report && KeyName(k) == KeyName(l) ensures k == l {
      KeyNamesDiffer(k, l);
    }
  }

  /** A report as the caller gets it. */
  function Printed(report: Report): map<string, Value>
    requires forall k :: k in report ==> Reported(k)
  {
    AllNamesDiffer(report);
    map k | k in report :: KeyName(k) := report[k]
  }

  /** Looking a printed key up is looking the key up. */
  lemma PrintedLookup(report: Report, key: Key)
    requires Reported(key) && forall k :: k in report ==> Reported(k)
    ensures KeyName(key) in Printed(report) <==> key in report
    ensures key in report ==> Printed(report)[KeyName(key)] == report[key]
  {
    AllNamesDiffer(report);
    if KeyName(key) in Printed(report) {
      var k :| k in report && KeyName(k) == KeyName(key);
      KeyNamesDiffer(k, key);
    }
  }

  predicate AllReported(report: Report) {
    forall k :: k in report ==> Reported(k)
  }

  lemma {:induction false} ScanReported(text: Field -> seq<byte>, a: Area, s: seq<byte>, i: nat, eng: bool)
    requires InfoArea(a)
    ensures AllReported(ScanFields(text, a, s, i, eng).report)
    decreases |s|
  {
    if Decodable(s, eng) {
      ScanReported(text, a, AfterField(s), i + 1, eng);
    }
  }

  lemma PartReported(i: nat, b: seq<byte>)
    requires 1 <= i < 4 && (b != [] ==> |b| >= 8)
    ensures AllReported(PartReport(i, b))
  {
    if b != [] {
      var a := AreaIndex(i);
      ScanReported(TextOf, a, Body(b)[FirstField(a)..], 0, English(a, b));
    }
  }

  lemma {:induction false} UpToReported(fru: seq<byte>, n: nat)
    requires |fru| > HEADER && 1 <= n <= 4
    ensures AllReported(ReportUpTo(fru, n))
  {
    if n > 1 {
      UpToReported(fru, n - 1);
      if Part(fru, n - 1).Some? {
        PartReported(n - 1, Part(fru, n - 1).value);
      }
    }
  }

  /** The keys of a report are all of those kinds. */
  lemma FormatReported(fru: seq<byte>)
    ensures AllReported(FormatReport(fru))
  {
    if |fru| > HEADER {
      UpToReported(fru, 4);
    }
  }

  /** The first `n` bytes of `value` are what is left without its trailing spaces and NULs. */
  predicate EndsAt(value: seq<byte>, n: nat) {
    && n <= |value| && (forall i :: n <= i < |value| ==> value[i] in {0, 32})
    && (n == 0 || value[n - 1] !in {0, 32})
  }

  /** Under the name the caller finds the value without its trailing spaces and NULs. */
  ghost predicate ReadsBack(report: Report, name: string, value: seq<byte>)
    requires AllReported(report)
  {
    exists n: nat :: EndsAt(value, n) && Lookup(Printed(report), name) == Some(Text(value[..n]))
  }

  /** After an edit the caller reads the value, without trailing spaces and NULs, under the field's
      name, which is the name the edit was made under whenever that is a canonical one. */
  lemma EditedNameReads(fru: seq<byte>, name: string, value: seq<byte>)
    requires FormatCode(fru) != ResErr && |fru| > HEADER && MultirecordLast(fru)
    requires Updatable(true, fru, name, value)
    requires EditableArea(AreaOf(name).value, Disassembled(fru).value)
    requires Fits(AreaOf(name).value, UpdatedAreas(fru, name, value))
    requires EndsLong(AreaOf(name).value, Disassembled(fru).value, name, value)
    ensures var report, a := FormatReport(Image(UpdatedAreas(fru, name, value))), AreaOf(name).value;
            && AllReported(report) && InfoArea(a) && TargetIndex(a, name).Some?
            && ReadsBack(report, FieldName(a, TargetIndex(a, name).value), value)
            && (CanonicalName(a, name) ==> ReadsBack(report, name, value))
  {
    var a := AreaOf(name).value;
    SelectedIsTarget(a, BaseArea(a, Disassembled(fru).value), name);
    var k := TargetIndex(a, name).value;
    EditedValue(fru, a, k, name, value);
    FormatReported(Image(UpdatedAreas(fru, name, value)));
    EntryReadsBack(FormatReport(Image(UpdatedAreas(fru, name, value))), a, k, value);
    ReportedUnderItsName(a, name);
  }

  lemma OfField(a: Area, k: nat)
    ensures KeyArea(Entry(a, k)) == Some(a) && KeyArea(MacOf(a, k)) == Some(a)
  {
  }

  lemma EditedValue(fru: seq<byte>, a: Area, k: nat, name: string, value: seq<byte>)
    requires FormatCode(fru) != ResErr && |fru| > HEADER && MultirecordLast(fru)
    requires AreaOf(name) == Some(a) && Updatable(true, fru, name, value) && TargetIndex(a, name) == Some(k)
    requires EditableArea(a, Disassembled(fru).value) && Fits(a, UpdatedAreas(fru, name, value))
    requires EndsLong(a, Disassembled(fru).value, name, value)
    ensures Get(FormatReport(Image(UpdatedAreas(fru, name, value))), Entry(a, k)) == Some(Text(Trim(value)))
  {
    OfField(a, k);
    EditThenDecode(fru, name, value, Entry(a, k));
    EditedEntry(a, BaseArea(a, Disassembled(fru).value), k, value);
  }

  lemma EntryReadsBack(report: Report, a: Area, k: nat, value: seq<byte>)
    requires AllReported(report) && InfoArea(a) && Get(report, Entry(a, k)) == Some(Text(Trim(value)))
    ensures ReadsBack(report, FieldName(a, k), value)
  {
    PrintedLookup(report, Entry(a, k));
    assert KeyName(Entry(a, k)) == FieldName(a, k);
    TrimEnds(value);
  }

  lemma TrimEnds(value: seq<byte>)
    ensures EndsAt(value, |Trim(value)|) && Trim(value) == value[..|Trim(value)|]
  {
  }

  function Lookup(m: map<string, Value>, name: string): Option<Value> {
    if name in m then Some(m[name]) else None
  }
}
