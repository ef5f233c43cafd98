/** A FRU info area carries a run of fields, each a type/length byte followed by
    as many data bytes as its low six bits say, closed by the marker 0xC1
    (section 13 of the Platform Management FRU Information Storage Definition v1.0).
    This module relates the bytes to the list of fields they spell. */
module FruFields {
  import opened Bytes

  const END_OF_FIELDS: byte := 0xC1

  datatype Field = Field(typeLen: byte, data: seq<byte>)

  const EMPTY_FIELD := Field(0xC0, [])

  /** The length a type/length byte announces: its low six bits. */
  function LengthOf(typeLen: byte): nat {
    if typeLen < 64 then typeLen
    else if typeLen < 128 then typeLen - 64
    else if typeLen < 192 then typeLen - 128
    else typeLen - 192
  }

  lemma LowSixBits(typeLen: byte)
    ensures LengthOf(typeLen) == typeLen % 64
  {
  }

  predicate ValidField(f: Field) {
    f.typeLen != END_OF_FIELDS && |f.data| == LengthOf(f.typeLen)
  }

  predicate AllValid(fs: seq<Field>) {
    forall i :: 0 <= i < |fs| ==> ValidField(fs[i])
  }

  function FieldBytes(f: Field): seq<byte> {
    [f.typeLen] + f.data
  }

  function Encode(fs: seq<Field>): seq<byte> {
    if fs == [] then [] else FieldBytes(fs[0]) + Encode(fs[1..])
  }

  /** A complete field starts the bytes `s`. */
  predicate FieldFirst(s: seq<byte>) {
    s != [] && s[0] != END_OF_FIELDS && 1 + LengthOf(s[0]) <= |s|
  }

  function FrontField(s: seq<byte>): (f: Field)
    requires FieldFirst(s)
    ensures ValidField(f)
  {
    Field(s[0], s[1..1 + LengthOf(s[0])])
  }

  function AfterField(s: seq<byte>): (r: seq<byte>)
    requires FieldFirst(s)
    ensures |r| < |s|
  {
    s[1 + LengthOf(s[0])..]
  }

  /** The complete fields at the front of `s`. */
  function Fields(s: seq<byte>): (fs: seq<Field>)
    ensures AllValid(fs)
    decreases |s|
  {
    if FieldFirst(s) then [FrontField(s)] + Fields(AfterField(s)) else []
  }

  /** What is left of `s` after its complete fields. */
  function Rest(s: seq<byte>): (r: seq<byte>)
    ensures !FieldFirst(r)
    decreases |s|
  {
    if FieldFirst(s) then Rest(AfterField(s)) else s
  }

  /** The walk over `s` reaches the end marker. */
  predicate Terminated(s: seq<byte>) {
    Rest(s) != [] && Rest(s)[0] == END_OF_FIELDS
  }

  lemma EncodeCons(f: Field, fs: seq<Field>)
    ensures Encode([f] + fs) == FieldBytes(f) + Encode(fs)
  {
    assert ([f] + fs)[1..] == fs;
  }

  lemma SplitFirst(s: seq<byte>)
    requires FieldFirst(s)
    ensures s == FieldBytes(FrontField(s)) + AfterField(s)
  {
  }

  lemma {:induction false} FieldsThenRest(s: seq<byte>)
    ensures s == Encode(Fields(s)) + Rest(s)
    decreases |s|
  {
    if FieldFirst(s) {
      var t := AfterField(s);
      FieldsThenRest(t);
      SplitFirst(s);
      EncodeCons(FrontField(s), Fields(t));
      Assoc(FieldBytes(FrontField(s)), Encode(Fields(t)), Rest(t));
    }
  }

  lemma {:induction false} EncodeConcat(a: seq<Field>, b: seq<Field>)
    ensures Encode(a + b) == Encode(a) + Encode(b)
  {
    if a == [] {
      assert a + b == b;
    } else {
      EncodeConcat(a[1..], b);
      assert a + b == [a[0]] + (a[1..] + b);
      EncodeCons(a[0], a[1..] + b);
      Assoc(FieldBytes(a[0]), Encode(a[1..]), Encode(b));
    }
  }

  lemma EncodeOne(f: Field)
    ensures Encode([f]) == FieldBytes(f)
  {
    assert [f][1..] == [];
  }

  lemma ParseOne(f: Field, w: seq<byte>)
    requires ValidField(f)
    ensures Fields(FieldBytes(f) + w) == [f] + Fields(w)
    ensures Rest(FieldBytes(f) + w) == Rest(w)
  {
    var s, n := FieldBytes(f) + w, 1 + |f.data|;
    assert s[0] == f.typeLen && s[1..n] == f.data && s[n..] == w;
    assert FrontField(s) == f && AfterField(s) == w;
  }

  lemma FirstThenRest(fs: seq<Field>, gs: seq<Field>)
    requires fs != []
    ensures [fs[0]] + (fs[1..] + gs) == fs + gs
  {
  }

  /** Parsing undoes encoding, whatever bytes follow. */
  lemma {:induction false} ParseEncoded(fs: seq<Field>, tail: seq<byte>)
    requires AllValid(fs)
    ensures Fields(Encode(fs) + tail) == fs + Fields(tail)
    ensures Rest(Encode(fs) + tail) == Rest(tail)
  {
    if fs == [] {
      assert Encode(fs) + tail == tail;
    } else {
      var w := Encode(fs[1..]) + tail;
      Assoc(FieldBytes(fs[0]), Encode(fs[1..]), tail);
      ParseOne(fs[0], w);
      ParseEncoded(fs[1..], tail);
      FirstThenRest(fs, Fields(tail));
    }
  }

  /** Once the marker is reached, appending bytes changes nothing before it. */
  lemma TerminatedPrefix(s: seq<byte>, tail: seq<byte>)
    requires Terminated(s)
    ensures Terminated(s + tail)
    ensures Fields(s + tail) == Fields(s) && Rest(s + tail) == Rest(s) + tail
  {
    FieldsThenRest(s);
    assert s + tail == Encode(Fields(s)) + (Rest(s) + tail);
    ParseEncoded(Fields(s), Rest(s) + tail);
  }

  /** `fs` lengthened with empty fields to at least `n` entries. */
  function Pad(fs: seq<Field>, n: nat): (r: seq<Field>)
    ensures |r| == if |fs| < n then n else |fs|
    ensures AllValid(fs) ==> AllValid(r)
    ensures forall i :: 0 <= i < |r| ==> r[i] == if i < |fs| then fs[i] else EMPTY_FIELD
  {
    if n <= |fs| then fs else fs + seq(n - |fs|, _ => EMPTY_FIELD)
  }

  /** The list update an edit of field `k` amounts to. */
  function Update(fs: seq<Field>, k: nat, f: Field): seq<Field> {
    Pad(fs, k + 1)[k := f]
  }
}
