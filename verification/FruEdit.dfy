/** Editing one field of an info area: walk to the field, opening empty ones where the area is
    too short, splice the new value in, then re-pad, re-measure and re-checksum the area. */
module FruEdit {
  import opened Bytes
  import opened FruFields
  import opened FruNames

  /** `b` with its field list (from offset `h`) opened up to at least `n` fields. */
  function Open(b: seq<byte>, h: nat, n: nat): seq<byte>
    requires h <= |b|
  {
    b[..h] + Encode(Pad(Fields(b[h..]), n)) + Rest(b[h..])
  }

  /** Where field `n` starts once `n` fields are open. */
  function Position(b: seq<byte>, h: nat, n: nat): nat
    requires h <= |b|
  {
    h + |Encode(Pad(Fields(b[h..]), n)[..n])|
  }

  /** A walk from offset `h` gets past field `k`: the field is complete, or the walk meets the
      end marker first and fields can be opened in front of it. */
  predicate Reachable(b: seq<byte>, h: nat, k: nat) {
    h <= |b| && (k < |Fields(b[h..])| || Terminated(b[h..]))
  }

  /** The field an edit of `name` reaches in the bytes `b`, whose listed fields start at `h`. */
  function SelectedAmong(fields: seq<string>, h: nat, b: seq<byte>, name: string): Option<nat>
    requires fields != []
  {
    match NamedFrom(fields, 0, name)
    case Some(j) => if Reachable(b, h, j) then Some(j) else None
    case None =>
      if !Reachable(b, h, |fields| - 1) then None
      else
        match CustomNumber(name)
        case None => None
        case Some(c) =>
          if c <= |Open(b, h, |fields|)| && Reachable(b, h, |fields| + c - 1) then Some(|fields| + c - 1) else None
  }

  function Selected(a: Area, b: seq<byte>, name: string): Option<nat> {
    if InfoArea(a) then SelectedAmong(FieldNames(a), FirstField(a), b, name) else None
  }

  lemma SelectedIsTarget(a: Area, b: seq<byte>, name: string)
    requires Selected(a, b, name).Some?
    ensures InfoArea(a) && TargetIndex(a, name) == Selected(a, b, name)
    ensures Reachable(b, FirstField(a), Selected(a, b, name).value)
  {
  }

  /** The walk stands on field `n` of `front + Encode(fs) + rest`. */
  lemma StandOnField(front: seq<byte>, fs: seq<Field>, rest: seq<byte>, n: nat)
    requires AllValid(fs) && n < |fs|
    ensures |Encode(fs[..n + 1])| == |Encode(fs[..n])| + |FieldBytes(fs[n])|
    ensures front + Encode(fs) + rest ==
            (front + Encode(fs[..n])) + FieldBytes(fs[n]) + (Encode(fs[n + 1..]) + rest)
  {
    var f, x, z := fs[n], Encode(fs[..n]), Encode(fs[n + 1..]);
    assert fs[..n + 1] == fs[..n] + [f];
    EncodeConcat(fs[..n], [f]);
    EncodeOne(f);
    assert fs == fs[..n + 1] + fs[n + 1..];
    EncodeConcat(fs[..n + 1], fs[n + 1..]);
    assert Encode(fs) == (x + FieldBytes(f)) + z;
    FourPieces(front, x, FieldBytes(f), z, rest);
  }

  lemma FourPieces(u: seq<byte>, x: seq<byte>, y: seq<byte>, z: seq<byte>, w: seq<byte>)
    ensures u + (x + y + z) + w == (u + x) + y + (z + w)
  {
  }

  lemma CutPieces(u: seq<byte>, y: seq<byte>, w: seq<byte>)
    ensures var b := u + y + w;
            && b[..|u|] == u && b[|u| + |y|..] == w
            && (y != [] ==> b[|u|] == y[0])
  {
  }

  /** A walk in progress: the bytes so far, and the offset of the next field. */
  datatype Walk = Walk(bytes: seq<byte>, at: nat)

  /** One turn of the walk: open an empty field at the end marker, then step over the field. */
  function Visit(w: Walk): Option<Walk> {
    if w.at >= |w.bytes| then None
    else if w.bytes[w.at] == END_OF_FIELDS then Some(Walk(w.bytes[..w.at] + [0xC0] + w.bytes[w.at..], w.at + 1))
    else if LengthOf(w.bytes[w.at]) > |w.bytes| - w.at - 1 then None
    else Some(Walk(w.bytes, w.at + 1 + LengthOf(w.bytes[w.at])))
  }

  /** The states a walk from offset `h` passes through. */
  predicate IsWalk(b: seq<byte>, h: nat, trace: seq<Walk>) {
    && trace != [] && trace[0] == Walk(b, h)
    && forall i :: 0 <= i < |trace| - 1 ==> Visit(trace[i]) == Some(trace[i + 1])
  }

  lemma VisitAtField(u: seq<byte>, f: Field, w: seq<byte>)
    requires ValidField(f)
    ensures var b := u + FieldBytes(f) + w;
            Visit(Walk(b, |u|)) == Some(Walk(b, |u| + |FieldBytes(f)|))
  {
    CutPieces(u, FieldBytes(f), w);
  }

  lemma VisitAtRest(u: seq<byte>, rest: seq<byte>)
    requires !FieldFirst(rest)
    ensures Visit(Walk(u + rest, |u|)) ==
            if rest != [] && rest[0] == END_OF_FIELDS then Some(Walk(u + [0xC0] + rest, |u| + 1)) else None
  {
    assert (u + rest)[..|u|] == u && (u + rest)[|u|..] == rest;
  }

  lemma PadNext(fs: seq<Field>, n: nat)
    ensures n < |fs| ==> Pad(fs, n) == fs == Pad(fs, n + 1)
    ensures n >= |fs| ==> Pad(fs, n)[..n] == Pad(fs, n)
    ensures n >= |fs| ==> Pad(fs, n + 1)[..n + 1] == Pad(fs, n + 1) == Pad(fs, n) + [EMPTY_FIELD]
  {
  }

  lemma OneMoreEmpty(fs: seq<Field>, n: nat)
    requires n >= |fs|
    ensures Encode(Pad(fs, n + 1)) == Encode(Pad(fs, n)) + [0xC0]
  {
    PadNext(fs, n);
    EncodeConcat(Pad(fs, n), [EMPTY_FIELD]);
    EncodeOne(EMPTY_FIELD);
    assert FieldBytes(EMPTY_FIELD) == [0xC0];
  }

  lemma VisitStep(b: seq<byte>, h: nat, n: nat)
    requires h <= |b|
    ensures Visit(Walk(Open(b, h, n), Position(b, h, n))) ==
            if Reachable(b, h, n) then Some(Walk(Open(b, h, n + 1), Position(b, h, n + 1))) else None
  {
    var front, fs, rest := b[..h], Fields(b[h..]), Rest(b[h..]);
    PadNext(fs, n);
    if n < |fs| {
      StandOnField(front, fs, rest, n);
      VisitAtField(front + Encode(fs[..n]), fs[n], Encode(fs[n + 1..]) + rest);
    } else {
      var more := Encode(Pad(fs, n));
      VisitAtRest(front + more, rest);
      OneMoreEmpty(fs, n);
      Assoc(front, more, [0xC0]);
    }
  }

  /** After `n` fields the walk has opened the list up and stands behind its first `n` fields. */
  lemma {:induction false} WalkOpens(b: seq<byte>, h: nat, trace: seq<Walk>, n: nat)
    requires h <= |b| && IsWalk(b, h, trace) && n < |trace|
    ensures trace[n] == Walk(Open(b, h, n), Position(b, h, n))
    ensures n > 0 ==> Reachable(b, h, n - 1)
  {
    if n == 0 {
      FieldsThenRest(b[h..]);
      assert b == b[..h] + b[h..];
      Assoc(b[..h], Encode(Fields(b[h..])), Rest(b[h..]));
      assert Pad(Fields(b[h..]), 0)[..0] == [];
    } else {
      WalkOpens(b, h, trace, n - 1);
      assert Visit(trace[n - 1]) == Some(trace[n]);
      VisitStep(b, h, n - 1);
    }
  }

  /** It gets stuck only where the field cannot be reached. */
  lemma WalkStuck(b: seq<byte>, h: nat, trace: seq<Walk>)
    requires IsWalk(b, h, trace) && Visit(trace[|trace| - 1]).None?
    ensures !Reachable(b, h, |trace| - 1)
  {
    if h <= |b| {
      WalkOpens(b, h, trace, |trace| - 1);
      VisitStep(b, h, |trace| - 1);
    }
  }

  datatype FieldInfo = FieldInfo(length: nat, index: nat)

  method VisitField(areaData: seq<byte>, fieldIndex: nat) returns (ok: bool, length: nat, result: seq<byte>)
    ensures ok <==> Visit(Walk(areaData, fieldIndex)).Some?
    ensures ok ==> Visit(Walk(areaData, fieldIndex)) == Some(Walk(result, fieldIndex + 1 + length))
  {
    result := areaData;
    length := 0;
    if fieldIndex >= |areaData| {
      return false, length, result;
    }
    if areaData[fieldIndex] == END_OF_FIELDS {
      result := areaData[..fieldIndex] + [0xC0] + areaData[fieldIndex..];
    } else {
      length := LengthOf(areaData[fieldIndex]);
    }
    ok := length <= |result| - fieldIndex - 1;
  }

  /** The walk has just stepped over field `k`, described by `info`. */
  predicate SteppedOver(b: seq<byte>, h: nat, k: nat, info: FieldInfo, result: seq<byte>, trace: seq<Walk>) {
    && IsWalk(b, h, trace) && |trace| == k + 2
    && trace[k].at == info.index && trace[k + 1] == Walk(result, info.index + 1 + info.length)
  }

  datatype Listed = Found(info: FieldInfo) | Passed(fieldIndex: nat) | Stuck

  /** The first loop of findOrCreateField, over the listed fields. */
  method WalkListed(areaData: seq<byte>, name: string, fields: seq<string>, h: nat)
    returns (found: Listed, result: seq<byte>, ghost trace: seq<Walk>)
    ensures IsWalk(areaData, h, trace)
    ensures found.Found? ==>
              && NamedFrom(fields, 0, name) == Some(|trace| - 2)
              && SteppedOver(areaData, h, |trace| - 2, found.info, result, trace)
    ensures found.Passed? ==>
              && NamedFrom(fields, 0, name) == None
              && |trace| == |fields| + 1 && trace[|fields|] == Walk(result, found.fieldIndex)
    ensures found.Stuck? ==>
              && |trace| <= |fields| && Visit(trace[|trace| - 1]) == None
              && (NamedFrom(fields, 0, name).Some? ==> |trace| <= NamedFrom(fields, 0, name).value + 1)
  {
    result, trace := areaData, [Walk(areaData, h)];
    var fieldIndex, fieldLength, ok := h, 0, true;
    var i := 0;
    while i < |fields|
      invariant i <= |fields| && IsWalk(areaData, h, trace)
      invariant |trace| == i + 1 && trace[i] == Walk(result, fieldIndex)
      invariant NamedFrom(fields, 0, name) == NamedFrom(fields, i, name)
    {
      ok, fieldLength, result := VisitField(result, fieldIndex);
      if !ok {
        return Stuck, result, trace;
      }
      trace := trace + [Walk(result, fieldIndex + 1 + fieldLength)];
      if Prefix(name) + fields[i] == name {
        return Found(FieldInfo(fieldLength, fieldIndex)), result, trace;
      }
      fieldIndex := fieldIndex + 1 + fieldLength;
      i := i + 1;
    }
    return Passed(fieldIndex), result, trace;
  }

  /** The second loop of findOrCreateField, over `count` custom fields. */
  method WalkCustom(ghost areaData: seq<byte>, ghost h: nat, current: seq<byte>, start: nat, count: nat,
                    ghost before: seq<Walk>)
    returns (info: Option<FieldInfo>, result: seq<byte>, ghost trace: seq<Walk>)
    requires count > 0 && IsWalk(areaData, h, before) && before[|before| - 1] == Walk(current, start)
    ensures IsWalk(areaData, h, trace)
    ensures info.Some? ==> SteppedOver(areaData, h, |before| + count - 2, info.value, result, trace)
    ensures info.None? ==> |trace| < |before| + count && Visit(trace[|trace| - 1]) == None
  {
    var fieldIndex, fieldLength, ok := start, 0, true;
    result, trace := current, before;
    var i := 0;
    while i < count
      invariant i <= count && IsWalk(areaData, h, trace)
      invariant |trace| == |before| + i && trace[|trace| - 1] == Walk(result, fieldIndex)
      invariant i > 0 ==> fieldIndex >= fieldLength + 1 && trace[|trace| - 2].at == fieldIndex - (fieldLength + 1)
    {
      ok, fieldLength, result := VisitField(result, fieldIndex);
      if !ok {
        return None, result, trace;
      }
      fieldIndex := fieldIndex + 1 + fieldLength;
      trace := trace + [Walk(result, fieldIndex)];
      i := i + 1;
    }
    fieldIndex := fieldIndex - (fieldLength + 1);
    return Some(FieldInfo(fieldLength, fieldIndex)), result, trace;
  }

  /** What stepping over field `k` says about the opened bytes. */
  predicate OpenedAt(b: seq<byte>, h: nat, k: nat, info: FieldInfo, result: seq<byte>) {
    && h <= |b| && result == Open(b, h, k + 1)
    && info.index == Position(b, h, k) && info.index + 1 + info.length == Position(b, h, k + 1)
  }

  lemma SteppedOverOpens(b: seq<byte>, h: nat, k: nat, info: FieldInfo, result: seq<byte>, trace: seq<Walk>)
    requires SteppedOver(b, h, k, info, result, trace)
    ensures OpenedAt(b, h, k, info, result) && Reachable(b, h, k)
  {
    assert Visit(trace[0]) == Some(trace[1]);
    WalkOpens(b, h, trace, k);
    WalkOpens(b, h, trace, k + 1);
  }

  lemma StaysUnreachable(b: seq<byte>, h: nat, j: nat, k: nat)
    requires !Reachable(b, h, j) && j <= k
    ensures !Reachable(b, h, k)
  {
  }

  /** The walk over custom fields ends behind field `k`, or stuck in front of it. */
  method OpenCustom(ghost areaData: seq<byte>, ghost h: nat, ghost k: nat, current: seq<byte>, start: nat, count: nat,
                    ghost before: seq<Walk>)
    returns (info: Option<FieldInfo>, result: seq<byte>)
    requires count > 0 && IsWalk(areaData, h, before) && before[|before| - 1] == Walk(current, start)
             && k == |before| + count - 2
    ensures info.Some? <==> Reachable(areaData, h, k)
    ensures info.Some? ==> OpenedAt(areaData, h, k, info.value, result)
  {
    ghost var trace;
    info, result, trace := WalkCustom(areaData, h, current, start, count, before);
    if info.Some? {
      SteppedOverOpens(areaData, h, k, info.value, result, trace);
    } else {
      WalkStuck(areaData, h, trace);
      StaysUnreachable(areaData, h, |trace| - 1, k);
    }
  }

  /** Behind `n` listed fields: open custom fields up to the one `name` has the number of. */
  method FindCustom(ghost areaData: seq<byte>, ghost h: nat, ghost n: nat, current: seq<byte>, start: nat, name: string,
                    ghost before: seq<Walk>)
    returns (info: Option<FieldInfo>, result: seq<byte>)
    requires n > 0 && h <= |areaData| && IsWalk(areaData, h, before)
    requires |before| == n + 1 && before[n] == Walk(current, start)
    ensures info.Some? <==> CustomNumber(name).Some? && CustomNumber(name).value <= |current|
                            && Reachable(areaData, h, n + CustomNumber(name).value - 1)
    ensures info.Some? ==> OpenedAt(areaData, h, n + CustomNumber(name).value - 1, info.value, result)
  {
    var number := CustomNumber(name);
    if number.None? || number.value > |current| {
      return None, current;
    }
    info, result := OpenCustom(areaData, h, n + number.value - 1, current, start, number.value, before);
  }

  lemma ListedSelected(fields: seq<string>, h: nat, b: seq<byte>, name: string, j: nat)
    requires fields != [] && NamedFrom(fields, 0, name) == Some(j) && Reachable(b, h, j)
    ensures SelectedAmong(fields, h, b, name) == Some(j)
  {
  }

  lemma StuckSelected(fields: seq<string>, h: nat, b: seq<byte>, name: string, k: nat)
    requires k < |fields| && !Reachable(b, h, k)
             && (NamedFrom(fields, 0, name).Some? ==> k <= NamedFrom(fields, 0, name).value)
    ensures SelectedAmong(fields, h, b, name) == None
  {
  }

  lemma CustomSelected(fields: seq<string>, h: nat, b: seq<byte>, name: string)
    requires fields != [] && NamedFrom(fields, 0, name) == None && Reachable(b, h, |fields| - 1)
    ensures var c := CustomNumber(name);
            SelectedAmong(fields, h, b, name) ==
            if c.Some? && c.value <= |Open(b, h, |fields|)| && Reachable(b, h, |fields| + c.value - 1)
            then Some(|fields| + c.value - 1) else None
  {
  }

  /** Once the listed fields are passed, the custom number decides. */
  lemma PassedSelected(fields: seq<string>, h: nat, b: seq<byte>, name: string, trace: seq<Walk>)
    requires fields != [] && NamedFrom(fields, 0, name) == None && IsWalk(b, h, trace) && |trace| == |fields| + 1
    ensures h <= |b|
    ensures var c := CustomNumber(name);
            SelectedAmong(fields, h, b, name) ==
            if c.Some? && c.value <= |trace[|fields|].bytes| && Reachable(b, h, |fields| + c.value - 1)
            then Some(|fields| + c.value - 1) else None
  {
    assert Visit(trace[0]) == Some(trace[1]);
    WalkOpens(b, h, trace, |fields|);
    CustomSelected(fields, h, b, name);
  }

  method FindAmong(areaData: seq<byte>, name: string, fields: seq<string>, h: nat)
    returns (info: Option<FieldInfo>, result: seq<byte>)
    requires fields != []
    ensures info.Some? <==> SelectedAmong(fields, h, areaData, name).Some?
    ensures info.Some? ==>
              OpenedAt(areaData, h, SelectedAmong(fields, h, areaData, name).value, info.value, result)
  {
    ghost var trace;
    var found;
    found, result, trace := WalkListed(areaData, name, fields, h);
    match found {
      case Found(at) =>
        SteppedOverOpens(areaData, h, |trace| - 2, at, result, trace);
        ListedSelected(fields, h, areaData, name, |trace| - 2);
        info := Some(at);
      case Stuck =>
        WalkStuck(areaData, h, trace);
        StuckSelected(fields, h, areaData, name, |trace| - 1);
        info := None;
      case Passed(fieldIndex) =>
        PassedSelected(fields, h, areaData, name, trace);
        info, result := FindCustom(areaData, h, |fields|, result, fieldIndex, name, trace);
    }
  }

  method FindOrCreateField(areaData: seq<byte>, name: string, a: Area)
    returns (info: Option<FieldInfo>, result: seq<byte>)
    ensures info.Some? <==> Selected(a, areaData, name).Some?
    ensures info.Some? ==>
              OpenedAt(areaData, FirstField(a), Selected(a, areaData, name).value, info.value, result)
  {
    if !InfoArea(a) {
      return None, areaData;
    }
    info, result := FindAmong(areaData, name, FieldNames(a), FirstField(a));
  }

  /** The last end-marker byte among the first `n` bytes. */
  function LastMarker(b: seq<byte>, n: nat): (r: Option<nat>)
    requires n <= |b|
    ensures r.Some? ==> r.value < n && b[r.value] == END_OF_FIELDS
    ensures forall j :: 0 <= j < n && b[j] == END_OF_FIELDS ==> r.Some? && j <= r.value
  {
    if n == 0 then None else if b[n - 1] == END_OF_FIELDS then Some(n - 1) else LastMarker(b, n - 1)
  }

  /** The last end-marker byte in front of the checksum position. */
  function EndMarker(b: seq<byte>): (r: Option<nat>)
    ensures r.Some? ==> r.value + 2 <= |b| && b[r.value] == END_OF_FIELDS
  {
    if |b| < 2 then None else LastMarker(b, |b| - 1)
  }

  method FindEndOfFieldMarker(bytes: seq<byte>) returns (r: Option<nat>)
    ensures r == EndMarker(bytes)
  {
    var index := |bytes| - 2;
    while index >= 0
      invariant -2 <= index <= |bytes| - 2
      invariant index >= -1 ==> EndMarker(bytes) == if |bytes| < 2 then None else LastMarker(bytes, index + 1)
      invariant index == -2 ==> |bytes| == 0
    {
      if bytes[index] == END_OF_FIELDS {
        return Some(index);
      }
      index := index - 1;
    }
    return None;
  }

  /** `getBlockCount`: the blocks that hold `n` bytes and a checksum behind them. */
  function GetBlockCount(n: nat): (blocks: nat)
    ensures n < blocks * BLOCK <= n + BLOCK
  {
    var blocks := (n + BLOCK - 1) / BLOCK;
    if n % BLOCK == 0 then blocks + 1 else blocks
  }

  /** `b` with its last byte replaced by the checksum of the others. */
  function WithChecksum(b: seq<byte>): (r: seq<byte>)
    requires b != []
    ensures |r| == |b| && r[..|b| - 1] == b[..|b| - 1]
    ensures Sum(r) % 256 == 0
  {
    ChecksumZeroesTheSum(b[..|b| - 1]);
    b[..|b| - 1] + [CalculateChecksum(b[..|b| - 1])]
  }

  method UpdateAreaChecksum(fruArea: seq<byte>) returns (ok: bool, result: seq<byte>)
    ensures ok <==> |fruArea| >= BLOCK && |fruArea| % BLOCK == 0
    ensures result == if ok then WithChecksum(fruArea) else fruArea
  {
    if |fruArea| < BLOCK || |fruArea| % BLOCK != 0 {
      return false, fruArea;
    }
    result := fruArea[|fruArea| - 1 := 0];
    assert result[..|result| - 1] == fruArea[..|fruArea| - 1];
    return true, result[|fruArea| - 1 := CalculateChecksum(result)];
  }

  function ValueField(value: seq<byte>): (f: Field)
    requires |value| < 64 && |value| != 1
    ensures ValidField(f)
  {
    Field(0xC0 + |value|, value)
  }

  predicate LegalLength(value: seq<byte>) {
    |value| != 1 && |value| <= 63
  }

  /** The area bytes with field `k` set to `value`, before re-padding. */
  function Spliced(b: seq<byte>, h: nat, k: nat, value: seq<byte>): seq<byte>
    requires h <= |b| && LegalLength(value)
  {
    b[..h] + Encode(Update(Fields(b[h..]), k, ValueField(value))) + Rest(b[h..])
  }

  lemma WholeBlocks(blocks: nat)
    ensures blocks * BLOCK % BLOCK == 0
  {
  }

  /** Re-pad after the end marker, store the block count, and fix the checksum. */
  function Sealed(b: seq<byte>): (r: seq<byte>)
    requires EndMarker(b).Some?
    ensures |r| == GetBlockCount(EndMarker(b).value + 1) * BLOCK
    ensures |r| % BLOCK == 0 && |r| >= BLOCK
  {
    var blocks := GetBlockCount(EndMarker(b).value + 1);
    WholeBlocks(blocks);
    WithChecksum(Resize(b, blocks * BLOCK)[1 := blocks % 256])
  }

  /** An edit of field `k` goes through: both old and new bytes hold an end marker, and without
      the build option ENABLE_FRU_AREA_RESIZE the block count stays. */
  predicate Replaceable(resize: bool, b: seq<byte>, h: nat, k: nat, value: seq<byte>) {
    && h <= |b| && LegalLength(value)
    && EndMarker(b).Some? && EndMarker(Spliced(b, h, k, value)).Some?
    && (resize || GetBlockCount(EndMarker(Spliced(b, h, k, value)).value + 1) == GetBlockCount(EndMarker(b).value + 1))
  }

  /** The bytes with field `k` replaced, re-padded and re-checksummed. */
  function Replaced(b: seq<byte>, h: nat, k: nat, value: seq<byte>): seq<byte>
    requires Replaceable(true, b, h, k, value)
  {
    Sealed(Spliced(b, h, k, value))
  }

  /** When `setField` succeeds. */
  predicate Settable(resize: bool, a: Area, b: seq<byte>, name: string, value: seq<byte>) {
    && LegalLength(value)
    && Selected(a, b, name).Some?
    && Replaceable(resize, b, FirstField(a), Selected(a, b, name).value, value)
  }

  /** The area after a successful edit. */
  function Edited(a: Area, b: seq<byte>, name: string, value: seq<byte>): (r: seq<byte>)
    requires Settable(true, a, b, name, value)
    ensures |r| % BLOCK == 0 && |r| >= BLOCK
  {
    Replaced(b, FirstField(a), Selected(a, b, name).value, value)
  }

  /** Erasing field `k` and inserting another in its place is the list update. */
  lemma SpliceList(front: seq<byte>, fs: seq<Field>, gs: seq<Field>, rest: seq<byte>, k: nat)
    requires AllValid(fs) && AllValid(gs) && |gs| == |fs| && k < |fs|
    requires gs[..k] == fs[..k] && gs[k + 1..] == fs[k + 1..]
    ensures var b, p, q := front + Encode(fs) + rest, |front| + |Encode(fs[..k])|, |front| + |Encode(fs[..k + 1])|;
            && p < q <= |b|
            && b[..p] + FieldBytes(gs[k]) + b[q..] == front + Encode(gs) + rest
  {
    StandOnField(front, fs, rest, k);
    StandOnField(front, gs, rest, k);
    CutPieces(front + Encode(fs[..k]), FieldBytes(fs[k]), Encode(fs[k + 1..]) + rest);
  }

  lemma PadPrefix(fs: seq<Field>, k: nat)
    ensures Pad(fs, k)[..k] == Pad(fs, k + 1)[..k]
  {
  }

  lemma SpliceBytes(b: seq<byte>, h: nat, k: nat, value: seq<byte>)
    requires h <= |b| && LegalLength(value)
    ensures var tmp, p, q := Open(b, h, k + 1), Position(b, h, k), Position(b, h, k + 1);
            && p < q <= |tmp|
            && tmp[..p] + ([0xC0 + |value|] + value) + tmp[q..] == Spliced(b, h, k, value)
  {
    var padded := Pad(Fields(b[h..]), k + 1);
    PadPrefix(Fields(b[h..]), k);
    SpliceList(b[..h], padded, padded[k := ValueField(value)], Rest(b[h..]), k);
  }

  /** The end of setField: seal the spliced bytes, or refuse and keep the old ones. */
  method Reseal(resize: bool, areaData: seq<byte>, spliced: seq<byte>) returns (ok: bool, result: seq<byte>)
    ensures ok <==> && EndMarker(areaData).Some? && EndMarker(spliced).Some?
                    && (resize
                        || GetBlockCount(EndMarker(spliced).value + 1) == GetBlockCount(EndMarker(areaData).value + 1))
    ensures result == if ok then Sealed(spliced) else areaData
  {
    var newMarker := FindEndOfFieldMarker(spliced);
    var oldMarker := FindEndOfFieldMarker(areaData);
    if oldMarker.None? || newMarker.None? {
      return false, areaData;
    }
    var blocks := GetBlockCount(newMarker.value + 1);
    if !resize && blocks != GetBlockCount(oldMarker.value + 1) {
      return false, areaData;
    }
    var tmp := Resize(spliced, blocks * BLOCK)[1 := blocks % 256];
    WholeBlocks(blocks);
    ok, result := UpdateAreaChecksum(tmp);
  }

  /** Erase the found field and insert the new one. */
  method ReplaceFound(info: FieldInfo, tmp: seq<byte>, value: seq<byte>,
                      ghost b: seq<byte>, ghost h: nat, ghost k: nat)
    returns (spliced: seq<byte>)
    requires LegalLength(value) && OpenedAt(b, h, k, info, tmp)
    ensures spliced == Spliced(b, h, k, value)
  {
    SpliceBytes(b, h, k, value);
    spliced := tmp[..info.index] + ([0xC0 + |value|] + value) + tmp[info.index + 1 + info.length..];
  }

  method SetFound(resize: bool, areaData: seq<byte>, info: FieldInfo, tmp: seq<byte>, value: seq<byte>, ghost h: nat,
                  ghost k: nat)
    returns (ok: bool, result: seq<byte>)
    requires LegalLength(value) && OpenedAt(areaData, h, k, info, tmp)
    ensures ok <==> Replaceable(resize, areaData, h, k, value)
    ensures result == if ok then Replaced(areaData, h, k, value) else areaData
  {
    var spliced := ReplaceFound(info, tmp, value, areaData, h, k);
    ok, result := Reseal(resize, areaData, spliced);
  }

  method SetField(resize: bool, a: Area, areaData: seq<byte>, name: string, value: seq<byte>)
    returns (ok: bool, result: seq<byte>)
    ensures ok <==> Settable(resize, a, areaData, name, value)
    ensures result == if ok then Edited(a, areaData, name, value) else areaData
  {
    if |value| == 1 || |value| > 63 {
      return false, areaData;
    }
    var info, tmp := FindOrCreateField(areaData, name, a);
    if info.None? {
      return false, areaData;
    }
    ok, result := SetFound(resize, areaData, info.value, tmp, value, FirstField(a), Selected(a, areaData, name).value);
  }

  /** The bytes of an area in front of its checksum. */
  function Body(b: seq<byte>): seq<byte> {
    if b == [] then [] else b[..|b| - 1]
  }

  /** The walk from offset `h` reaches the end marker in front of the checksum. */
  predicate Closed(b: seq<byte>, h: nat) {
    h < |b| && Terminated(Body(b)[h..])
  }

  predicate WellFormed(a: Area, b: seq<byte>) {
    InfoArea(a) && Closed(b, FirstField(a))
  }

  /** The list of fields an area holds. */
  function FieldsOf(a: Area, b: seq<byte>): seq<Field>
    requires WellFormed(a, b)
  {
    Fields(Body(b)[FirstField(a)..])
  }

  /** Whole blocks, and a zero byte sum. */
  predicate Blocked(b: seq<byte>) {
    b != [] && |b| % BLOCK == 0 && Sum(b) % 256 == 0
  }

  /** What every edit keeps: a reachable end marker, whole blocks counted by the length byte, and
      a zero byte sum. The padding need not be zero. */
  predicate AreaInvariant(a: Area, b: seq<byte>) {
    WellFormed(a, b) && Blocked(b) && b[1] * BLOCK == |b|
  }

  lemma WholeWalk(b: seq<byte>, h: nat)
    requires Closed(b, h)
    ensures Terminated(b[h..]) && Fields(b[h..]) == Fields(Body(b)[h..])
    ensures |Rest(b[h..])| >= 2
    ensures b[h..] == Encode(Fields(b[h..])) + Rest(b[h..])
  {
    assert b[h..] == Body(b)[h..] + [b[|b| - 1]];
    TerminatedPrefix(Body(b)[h..], [b[|b| - 1]]);
    FieldsThenRest(b[h..]);
  }

  /** From offset `h`, `b` spells the list `fs`, the end marker, and at least one byte more. */
  predicate Spells(b: seq<byte>, h: nat, fs: seq<Field>) {
    && h + |Encode(fs)| + 2 <= |b|
    && b[h..h + |Encode(fs)|] == Encode(fs) && b[h + |Encode(fs)|] == END_OF_FIELDS
  }

  lemma SpliceSpells(b: seq<byte>, h: nat, k: nat, value: seq<byte>)
    requires Closed(b, h) && LegalLength(value)
    ensures Spells(Spliced(b, h, k, value), h, Update(Fields(Body(b)[h..]), k, ValueField(value)))
    ensures forall i :: 0 <= i < h ==> Spliced(b, h, k, value)[i] == b[i]
  {
    WholeWalk(b, h);
    CutPieces(b[..h], Encode(Update(Fields(b[h..]), k, ValueField(value))), Rest(b[h..]));
  }

  lemma HasMarker(b: seq<byte>, e: nat)
    requires e + 2 <= |b| && b[e] == END_OF_FIELDS
    ensures EndMarker(b).Some? && e <= EndMarker(b).value
  {
  }

  lemma ClosedIsReplaceable(b: seq<byte>, h: nat, k: nat, value: seq<byte>)
    requires Closed(b, h) && LegalLength(value)
    ensures Replaceable(true, b, h, k, value)
  {
    WholeWalk(b, h);
    assert b[|b| - |Rest(b[h..])|] == b[h..][|Encode(Fields(b[h..]))|] == END_OF_FIELDS;
    HasMarker(b, |b| - |Rest(b[h..])|);
    SpliceSpells(b, h, k, value);
    HasMarker(Spliced(b, h, k, value), h + |Encode(Update(Fields(b[h..]), k, ValueField(value)))|);
  }

  lemma SelectedWhen(fields: seq<string>, h: nat, b: seq<byte>, name: string)
    requires fields != [] && Closed(b, h)
    ensures SelectedAmong(fields, h, b, name).Some? <==>
              && TargetAmong(fields, name).Some?
              && TargetAmong(fields, name).value - |fields| < |Open(b, h, |fields|)|
  {
    WholeWalk(b, h);
  }

  /** On a well-formed area nothing but the value's length and the name can make an edit fail;
      a custom number is refused only when it exceeds the opened area's size. */
  lemma SettableWhen(a: Area, b: seq<byte>, name: string, value: seq<byte>)
    requires WellFormed(a, b)
    ensures Settable(true, a, b, name, value) <==>
              && (value == [] || 2 <= |value| <= 63) && TargetIndex(a, name).Some?
              && TargetIndex(a, name).value - |FieldNames(a)| < |Open(b, FirstField(a), |FieldNames(a)|)|
  {
    SelectedWhen(FieldNames(a), FirstField(a), b, name);
    if LegalLength(value) && Selected(a, b, name).Some? {
      ClosedIsReplaceable(b, FirstField(a), Selected(a, b, name).value, value);
    }
  }

  /** Sealing keeps everything up to the end marker the walk reaches, but for the length byte. */
  lemma SealKeeps(b: seq<byte>, e: nat)
    requires 1 < e && e + 2 <= |b| && b[e] == END_OF_FIELDS
    ensures EndMarker(b).Some? && e + 2 <= |Sealed(b)|
    ensures forall i :: 0 <= i <= e && i != 1 ==> Sealed(b)[i] == b[i]
    ensures Sealed(b)[1] == |Sealed(b)| / BLOCK % 256 && Blocked(Sealed(b))
  {
    var blocks := GetBlockCount(EndMarker(b).value + 1);
    var r := Resize(b, blocks * BLOCK)[1 := blocks % 256];
    var out := Sealed(b);
    assert forall i :: 0 <= i < |r| - 1 ==> out[i] == r[..|r| - 1][i];
  }

  lemma SpellsClosed(b: seq<byte>, h: nat, fs: seq<Field>)
    requires AllValid(fs) && Spells(b, h, fs)
    ensures Closed(b, h) && Fields(Body(b)[h..]) == fs
  {
    var e := h + |Encode(fs)|;
    assert Body(b)[h..] == Encode(fs) + Body(b)[e..];
    assert Body(b)[e..][0] == END_OF_FIELDS;
    ParseEncoded(fs, Body(b)[e..]);
  }

  lemma SealedSpells(s: seq<byte>, h: nat, fs: seq<Field>)
    requires 2 <= h && AllValid(fs) && Spells(s, h, fs)
    ensures EndMarker(s).Some?
    ensures Closed(Sealed(s), h) && Fields(Body(Sealed(s))[h..]) == fs
    ensures forall i :: 0 <= i < h && i != 1 ==> Sealed(s)[i] == s[i]
    ensures Blocked(Sealed(s)) && Sealed(s)[1] == |Sealed(s)| / BLOCK % 256
  {
    var e := h + |Encode(fs)|;
    SealKeeps(s, e);
    assert Sealed(s)[h..e] == s[h..e];
    SpellsClosed(Sealed(s), h, fs);
  }

  lemma ReplacedIsListUpdate(b: seq<byte>, h: nat, k: nat, value: seq<byte>)
    requires 2 <= h && Closed(b, h) && Replaceable(true, b, h, k, value)
    ensures var out := Replaced(b, h, k, value);
            && Closed(out, h)
            && Fields(Body(out)[h..]) == Update(Fields(Body(b)[h..]), k, ValueField(value))
            && (forall i :: 0 <= i < h && i != 1 ==> out[i] == b[i])
            && Blocked(out) && out[1] == |out| / BLOCK % 256
  {
    SpliceSpells(b, h, k, value);
    SealedSpells(Spliced(b, h, k, value), h, Update(Fields(Body(b)[h..]), k, ValueField(value)));
  }

  /** setField is a list update. The fixed header keeps all bytes but the length byte. */
  lemma EditIsListUpdate(a: Area, b: seq<byte>, name: string, value: seq<byte>)
    requires WellFormed(a, b) && Settable(true, a, b, name, value)
    ensures var out := Edited(a, b, name, value);
            && WellFormed(a, out) && TargetIndex(a, name).Some?
            && FieldsOf(a, out) == Update(FieldsOf(a, b), TargetIndex(a, name).value, ValueField(value))
            && (forall i :: 0 <= i < FirstField(a) && i != 1 ==> out[i] == b[i])
            && Blocked(out) && out[1] == |out| / BLOCK % 256
  {
    SelectedIsTarget(a, b, name);
    ReplacedIsListUpdate(b, FirstField(a), Selected(a, b, name).value, value);
  }

  lemma LengthByte(n: nat)
    ensures n % BLOCK == 0 ==> (n / BLOCK % 256 * BLOCK == n <==> n <= 255 * BLOCK)
  {
  }

  /** An edit keeps the invariant exactly as long as the area fits the length byte. */
  lemma EditKeepsInvariant(a: Area, b: seq<byte>, name: string, value: seq<byte>)
    requires WellFormed(a, b) && Settable(true, a, b, name, value)
    ensures AreaInvariant(a, Edited(a, b, name, value)) <==> |Edited(a, b, name, value)| <= 255 * BLOCK
  {
    EditIsListUpdate(a, b, name, value);
    LengthByte(|Edited(a, b, name, value)|);
  }

  datatype Edit = Edit(name: string, value: seq<byte>)

  /** An area after a run of calls to setField, the refused ones included. */
  function EditAll(resize: bool, a: Area, b: seq<byte>, edits: seq<Edit>): seq<byte> {
    if edits == [] then b
    else
      var c := EditAll(resize, a, b, edits[..|edits| - 1]);
      var e := edits[|edits| - 1];
      if Settable(resize, a, c, e.name, e.value) then Edited(a, c, e.name, e.value) else c
  }

  /** Any run of edits keeps the invariant, if the area never outgrows 255 blocks on the way. */
  lemma {:induction false} EditsKeepInvariant(resize: bool, a: Area, b: seq<byte>, edits: seq<Edit>)
    requires AreaInvariant(a, b)
    requires forall n :: 0 <= n <= |edits| ==> |EditAll(resize, a, b, edits[..n])| <= 255 * BLOCK
    ensures AreaInvariant(a, EditAll(resize, a, b, edits))
  {
    if edits != [] {
      var head, e := edits[..|edits| - 1], edits[|edits| - 1];
      forall n | 0 <= n <= |head|
        ensures |EditAll(resize, a, b, head[..n])| <= 255 * BLOCK
      {
        assert head[..n] == edits[..n];
      }
      EditsKeepInvariant(resize, a, b, head);
      assert edits[..|edits|] == edits;
      var c := EditAll(resize, a, b, head);
      if Settable(resize, a, c, e.name, e.value) {
        EditKeepsInvariant(a, c, e.name, e.value);
      }
    }
  }
}
