/** The FRU areas and the property names a caller uses for their fields. */
module FruNames {
  import opened Bytes
  import opened Decimals

  datatype Area = Internal | Chassis | Board | Product | Multirecord

  const AREAS: seq<Area> := [Internal, Chassis, Board, Product, Multirecord]

  function Index(a: Area): (i: nat)
    ensures i < 5 && AREAS[i] == a
  {
    match a
    case Internal => 0
    case Chassis => 1
    case Board => 2
    case Product => 3
    case Multirecord => 4
  }

  predicate InfoArea(a: Area) {
    a.Chassis? || a.Board? || a.Product?
  }

  function AreaName(a: Area): string {
    match a
    case Internal => "INTERNAL"
    case Chassis => "CHASSIS"
    case Board => "BOARD"
    case Product => "PRODUCT"
    case Multirecord => "MULTIRECORD"
  }

  function FieldNames(a: Area): seq<string> {
    match a
    case Chassis => ["PART_NUMBER", "SERIAL_NUMBER"]
    case Board => ["MANUFACTURER", "PRODUCT_NAME", "SERIAL_NUMBER", "PART_NUMBER", "FRU_VERSION_ID"]
    case Product =>
      ["MANUFACTURER", "PRODUCT_NAME", "PART_NUMBER", "VERSION", "SERIAL_NUMBER", "ASSET_TAG", "FRU_VERSION_ID"]
    case _ => []
  }

  /** How many listed fields an area has. */
  function FieldCount(a: Area): nat {
    match a
    case Chassis => 2
    case Board => 5
    case Product => 7
    case _ => 0
  }

  lemma FieldCounts(a: Area)
    ensures |FieldNames(a)| == FieldCount(a)
  {
  }

  const CUSTOM := "INFO_AM"

  /** Offset of the first field in an info area. */
  function FirstField(a: Area): nat {
    if a.Board? then 6 else 3
  }

  /** First position of `c` in `s`, or |s|. */
  function IndexOf(s: string, c: char): (i: nat)
    ensures i <= |s| && (i < |s| ==> s[i] == c)
    ensures forall j :: 0 <= j < i ==> s[j] != c
  {
    if s == [] || s[0] == c then 0 else 1 + IndexOf(s[1..], c)
  }

  predicate Occurs(s: string, pat: string, j: nat) {
    j + |pat| <= |s| && s[j..j + |pat|] == pat
  }

  /** `string::find`: the first occurrence of `pat` at or after `from`. */
  function Find(s: string, pat: string, from: nat := 0): (r: Option<nat>)
    ensures r.Some? ==> from <= r.value && Occurs(s, pat, r.value)
    ensures forall j: nat :: from <= j && (r.Some? ==> j < r.value) ==> !Occurs(s, pat, j)
    decreases |s| - from
  {
    if |s| < from + |pat| then None
    else if Occurs(s, pat, from) then Some(from)
    else if from == |s| then None
    else Find(s, pat, from + 1)
  }

  /** The area a property name belongs to: its text before the first underscore. */
  function AreaOf(name: string): (r: Option<Area>)
    ensures r.Some? ==> AreaName(r.value) == name[..IndexOf(name, '_')]
  {
    var head := name[..IndexOf(name, '_')];
    if head == AreaName(Internal) then Some(Internal)
    else if head == AreaName(Chassis) then Some(Chassis)
    else if head == AreaName(Board) then Some(Board)
    else if head == AreaName(Product) then Some(Product)
    else if head == AreaName(Multirecord) then Some(Multirecord)
    else None
  }

  function Prefix(name: string): string {
    name[..IndexOf(name, '_')] + "_"
  }

  /** The first of `fields` that, behind the name's own prefix, spells `name`. */
  function NamedFrom(fields: seq<string>, j: nat, name: string): (r: Option<nat>)
    requires j <= |fields|
    ensures r.Some? ==> j <= r.value < |fields| && Prefix(name) + fields[r.value] == name
    ensures r.Some? ==> forall i :: j <= i < r.value ==> Prefix(name) + fields[i] != name
    ensures r.None? ==> forall i :: j <= i < |fields| ==> Prefix(name) + fields[i] != name
    decreases |fields| - j
  {
    if j == |fields| then None
    else if Prefix(name) + fields[j] == name then Some(j)
    else NamedFrom(fields, j + 1, name)
  }

  /** The number behind the first "INFO_AM" in a name, when it is a positive numeral. */
  function CustomNumber(name: string): (r: Option<nat>)
    ensures r.Some? ==> r.value > 0
  {
    match Find(name, CUSTOM)
    case None => None
    case Some(p) =>
      match ParseDecimal(name[p + |CUSTOM|..])
      case None => None
      case Some(n) => if n == 0 then None else Some(n)
  }

  /** The field a property name selects, counted from the area's first field: one of the listed
      `fields`, or a custom field behind them. */
  function TargetAmong(fields: seq<string>, name: string): Option<nat> {
    match NamedFrom(fields, 0, name)
    case Some(j) => Some(j)
    case None =>
      match CustomNumber(name)
      case Some(n) => Some(|fields| + n - 1)
      case None => None
  }

  function TargetIndex(a: Area, name: string): Option<nat> {
    TargetAmong(FieldNames(a), name)
  }

  /** What follows the area name when field `i` is reported. */
  function FieldSuffix(fields: seq<string>, i: nat): string {
    if i < |fields| then fields[i] else CUSTOM + ToDecimal(i - |fields| + 1)
  }

  /** The name under which field `i` of an area is reported. */
  function FieldName(a: Area, i: nat): string {
    AreaName(a) + "_" + FieldSuffix(FieldNames(a), i)
  }

  /** Listed names are distinct and none starts like a custom name. */
  predicate FieldList(fields: seq<string>) {
    && (forall i :: 0 <= i < |fields| ==> fields[i] != [] && fields[i][0] != 'I')
    && (forall i, j :: 0 <= i < j < |fields| ==> fields[i] != fields[j])
  }

  lemma FieldNamesList(a: Area)
    ensures FieldList(FieldNames(a))
  {
    assert FieldNames(Chassis)[0][0] == 'P' && FieldNames(Chassis)[1][0] == 'S';
    assert FieldNames(Board)[0][0] == 'M' && FieldNames(Board)[1][1] == 'R' && FieldNames(Board)[2][0] == 'S';
    assert FieldNames(Board)[3][1] == 'A' && FieldNames(Board)[4][0] == 'F';
    assert FieldNames(Product)[0][0] == 'M' && FieldNames(Product)[1][1] == 'R' && FieldNames(Product)[2][1] == 'A';
    assert FieldNames(Product)[3][0] == 'V' && FieldNames(Product)[4][0] == 'S' && FieldNames(Product)[5][0] == 'A';
    assert FieldNames(Product)[6][0] == 'F';
  }

  /** An area prefix: one underscore, at its end, and no "IN" inside. */
  predicate AreaPrefix(p: string) {
    && p != [] && p[|p| - 1] == '_'
    && (forall j :: 0 <= j < |p| - 1 ==> p[j] != '_' && (p[j] == 'I' ==> p[j + 1] != 'N'))
  }

  lemma AreaNamePrefix(a: Area)
    requires InfoArea(a)
    ensures AreaPrefix(AreaName(a) + "_")
  {
    var p := AreaName(a) + "_";
    match a
    case Chassis => assert p == "CHASSIS_";
    case Board => assert p == "BOARD_";
    case Product => assert p == "PRODUCT_";
    case _ => assert false;
  }

  lemma PrefixOf(p: string, tail: string)
    requires AreaPrefix(p)
    ensures Prefix(p + tail) == p
  {
    var s := p + tail;
    assert s[|p| - 1] == '_';
    assert forall j :: 0 <= j < |p| - 1 ==> s[j] == p[j];
    assert s[..|p| - 1] + "_" == p;
  }

  lemma AreaOfPrefix(a: Area, tail: string)
    requires InfoArea(a)
    ensures AreaOf(AreaName(a) + "_" + tail) == Some(a)
  {
    AreaNamePrefix(a);
    PrefixOf(AreaName(a) + "_", tail);
    var s := AreaName(a) + "_" + tail;
    assert Prefix(s)[..|AreaName(a)|] == AreaName(a);
    assert AreaName(Internal)[0] == 'I' && AreaName(Chassis)[0] == 'C' && AreaName(Board)[0] == 'B';
    assert AreaName(Product)[0] == 'P' && AreaName(Multirecord)[0] == 'M';
  }

  lemma SuffixMatch(p: string, x: string, y: string)
    ensures p + x == p + y <==> x == y
  {
    assert (p + x)[|p|..] == x && (p + y)[|p|..] == y;
  }

  lemma CustomStart(s: string, j: nat)
    ensures Occurs(s, CUSTOM, j) ==> s[j] == 'I' && s[j + 1] == 'N'
  {
    if Occurs(s, CUSTOM, j) {
      assert s[j] == s[j..j + |CUSTOM|][0] && s[j + 1] == s[j..j + |CUSTOM|][1];
    }
  }

  /** Custom names are found right behind an area prefix. */
  lemma CustomFound(p: string, digits: string)
    requires AreaPrefix(p)
    ensures Find(p + CUSTOM + digits, CUSTOM) == Some(|p|)
  {
    var s := p + CUSTOM + digits;
    assert s[|p|..|p| + |CUSTOM|] == CUSTOM;
    assert Occurs(s, CUSTOM, |p|);
    forall j: nat | j < |p|
      ensures !Occurs(s, CUSTOM, j)
    {
      assert s[j] == p[j] && (j + 1 < |p| ==> s[j + 1] == p[j + 1]);
      CustomStart(s, j);
    }
  }

  lemma TargetOfListed(fields: seq<string>, p: string, i: nat)
    requires FieldList(fields) && AreaPrefix(p) && i < |fields|
    ensures TargetAmong(fields, p + fields[i]) == Some(i)
  {
    PrefixOf(p, fields[i]);
    var r := NamedFrom(fields, 0, p + fields[i]);
    SuffixMatch(p, fields[r.value], fields[i]);
  }

  lemma TargetOfCustom(fields: seq<string>, p: string, digits: string)
    requires FieldList(fields) && AreaPrefix(p)
    ensures TargetAmong(fields, p + CUSTOM + digits) ==
            (if ParseDecimal(digits).None? || ParseDecimal(digits).value == 0 then None
             else Some(|fields| + ParseDecimal(digits).value - 1))
  {
    var tail := CUSTOM + digits;
    assert p + CUSTOM + digits == p + tail;
    PrefixOf(p, tail);
    assert tail[0] == 'I';
    forall j | 0 <= j < |fields|
      ensures p + fields[j] != p + tail
    {
      SuffixMatch(p, fields[j], tail);
    }
    CustomFound(p, digits);
    assert (p + CUSTOM + digits)[|p| + |CUSTOM|..] == digits;
  }

  /** Every reported name selects the very field it reports. */
  lemma FieldNameResolves(a: Area, i: nat)
    requires InfoArea(a)
    ensures AreaOf(FieldName(a, i)) == Some(a)
    ensures TargetIndex(a, FieldName(a, i)) == Some(i)
  {
    var fields, p := FieldNames(a), AreaName(a) + "_";
    FieldNamesList(a);
    AreaNamePrefix(a);
    AreaOfPrefix(a, FieldSuffix(fields, i));
    SuffixResolves(fields, p, i);
  }

  lemma SuffixResolves(fields: seq<string>, p: string, i: nat)
    requires FieldList(fields) && AreaPrefix(p)
    ensures TargetAmong(fields, p + FieldSuffix(fields, i)) == Some(i)
  {
    if i < |fields| {
      TargetOfListed(fields, p, i);
    } else {
      var digits := ToDecimal(i - |fields| + 1);
      TargetOfCustom(fields, p, digits);
      DecimalRoundTrip(i - |fields| + 1);
      assert p + CUSTOM + digits == p + (CUSTOM + digits);
    }
  }

  /** A name spelled as the decoder spells it: the area prefix, then either a listed field or
      INFO_AM with a numeral that has no leading zero. */
  predicate Canonical(fields: seq<string>, p: string, name: string) {
    && p <= name
    && (|| name[|p|..] in fields
        || (&& CUSTOM <= name[|p|..]
            && ParseDecimal(name[|p| + |CUSTOM|..]).Some? && name[|p| + |CUSTOM|] != '0'))
  }

  predicate CanonicalName(a: Area, name: string) {
    Canonical(FieldNames(a), AreaName(a) + "_", name)
  }

  lemma SuffixIsCanonical(fields: seq<string>, p: string, i: nat)
    ensures Canonical(fields, p, p + FieldSuffix(fields, i))
  {
    var tail := FieldSuffix(fields, i);
    var name := p + tail;
    assert name[|p|..] == tail;
    if i >= |fields| {
      var digits := ToDecimal(i - |fields| + 1);
      DecimalRoundTrip(i - |fields| + 1);
      assert name[|p| + |CUSTOM|..] == digits;
    }
  }

  lemma CanonicalIsSuffix(fields: seq<string>, p: string, name: string)
    requires FieldList(fields) && AreaPrefix(p) && Canonical(fields, p, name)
    ensures TargetAmong(fields, name).Some?
    ensures p + FieldSuffix(fields, TargetAmong(fields, name).value) == name
  {
    var tail := name[|p|..];
    assert name == p + tail;
    if tail in fields {
      var j :| 0 <= j < |fields| && fields[j] == tail;
      TargetOfListed(fields, p, j);
    } else {
      var digits := name[|p| + |CUSTOM|..];
      assert name == p + CUSTOM + digits;
      CustomIsSuffix(fields, p, digits);
    }
  }

  lemma CustomIsSuffix(fields: seq<string>, p: string, digits: string)
    requires FieldList(fields) && AreaPrefix(p) && ParseDecimal(digits).Some? && digits[0] != '0'
    ensures var target := TargetAmong(fields, p + CUSTOM + digits);
            target.Some? && p + FieldSuffix(fields, target.value) == p + CUSTOM + digits
  {
    TargetOfCustom(fields, p, digits);
    DecimalCanonical(digits);
    if |digits| == 1 {
      assert digits[..0] == [];
    }
    assert p + CUSTOM + digits == p + (CUSTOM + digits);
  }

  /** A selected field is reported under the name that selected it exactly when that name is
      canonical. "BOARD_INFO_AM01" and "BOARD_XINFO_AM1" are accepted too, and both edit the
      field reported as "BOARD_INFO_AM1". */
  lemma ReportedUnderItsName(a: Area, name: string)
    requires InfoArea(a) && TargetIndex(a, name).Some?
    ensures FieldName(a, TargetIndex(a, name).value) == name <==> CanonicalName(a, name)
  {
    var p, fields := AreaName(a) + "_", FieldNames(a);
    FieldNamesList(a);
    AreaNamePrefix(a);
    SuffixIsCanonical(fields, p, TargetAmong(fields, name).value);
    if CanonicalName(a, name) {
      CanonicalIsSuffix(fields, p, name);
    }
  }

  /** A name with a leading zero edits field 5 of the board area, which is reported under
      another name. */
  lemma NonCanonicalExample()
    ensures TargetIndex(Board, "BOARD_INFO_AM01") == Some(5)
    ensures FieldName(Board, 5) != "BOARD_INFO_AM01"
  {
    var p := AreaName(Board) + "_";
    var name := "BOARD_INFO_AM01";
    FieldNamesList(Board);
    AreaNamePrefix(Board);
    assert p + CUSTOM + "01" == name;
    LeadingZero();
    TargetOfCustom(FieldNames(Board), p, "01");
    assert |FieldSuffix(FieldNames(Board), 5)| == |CUSTOM| + |ToDecimal(1)| == 8;
  }

  lemma LeadingZero()
    ensures ParseDecimal("01") == Some(1)
  {
    assert "01"[..1] == "0" && "0"[..0] == "";
    assert DecimalValue("0") == 10 * DecimalValue("") + DigitValue('0');
    assert DecimalValue("01") == 10 * DecimalValue("0") + DigitValue('1');
  }
}
