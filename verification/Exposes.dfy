/** Adding and deleting records of an entity's "Exposes" array over D-Bus. A deleted record leaves a
    null slot, and a new one takes the first null slot or the end of the array. */
module Exposes {
  import opened Bytes

  datatype Entry = Entry(name: string, kind: string, fields: map<string, string>)

  /** What a caller hands in: "Name" and "Type" may be missing or not be strings. */
  datatype NewData = NewData(name: Option<string>, kind: Option<string>, fields: map<string, string>)

  datatype Added = Added(index: nat) | MissingNameOrType | AlreadyThere | NotInSchema

  type Slots = seq<Option<Entry>>

  /** The first null slot, or the end. */
  function FirstFree(slots: Slots): (i: nat)
    ensures i <= |slots| && (i < |slots| ==> slots[i].None?)
    ensures forall j :: 0 <= j < i ==> slots[j].Some?
  {
    if slots == [] || slots[0].None? then 0 else 1 + FirstFree(slots[1..])
  }

  predicate Holds(slots: Slots, i: nat, name: string, kind: string) {
    i < |slots| && slots[i].Some? && slots[i].value.name == name && slots[i].value.kind == kind
  }

  predicate Contains(slots: Slots, name: string, kind: string) {
    exists i :: 0 <= i < |slots| && Holds(slots, i, name, kind)
  }

  lemma ContainsMeans(slots: Slots, name: string, kind: string)
    ensures Contains(slots, name, kind) <==>
              exists i :: 0 <= i < |slots| && slots[i].Some?
                          && slots[i].value.name == name && slots[i].value.kind == kind
  {
    if i :| 0 <= i < |slots| && slots[i].Some? && slots[i].value.name == name && slots[i].value.kind == kind {
      assert Holds(slots, i, name, kind);
    }
  }

  /** No two live records have the same name and type. */
  predicate Distinct(slots: Slots) {
    forall i, j :: 0 <= i < j < |slots| && slots[i].Some? && slots[j].Some? ==>
      slots[i].value.name != slots[j].value.name || slots[i].value.kind != slots[j].value.kind
  }

  function Put(slots: Slots, i: nat, e: Entry): (r: Slots)
    requires i <= |slots|
    ensures |r| == (if i < |slots| then |slots| else i + 1) && r[i] == Some(e)
    ensures forall j :: 0 <= j < |slots| && j != i ==> r[j] == slots[j]
  {
    if i < |slots| then slots[i := Some(e)] else slots + [Some(e)]
  }

  lemma PutDistinct(slots: Slots, e: Entry)
    requires Distinct(slots) && !Contains(slots, e.name, e.kind)
    ensures Distinct(Put(slots, FirstFree(slots), e))
  {
    var i := FirstFree(slots);
    var r := Put(slots, i, e);
    forall j | 0 <= j < |r| && j != i && r[j].Some?
      ensures r[j].value.name != e.name || r[j].value.kind != e.kind
    {
      assert r[j] == slots[j];
      assert !Holds(slots, j, e.name, e.kind);
    }
  }

  ghost predicate Owned(exposes: Slots, pointers: map<nat, nat>, records: map<nat, Entry>, next: nat) {
    && pointers.Keys == records.Keys
    && (forall id :: id in pointers ==>
         id < next && pointers[id] < |exposes| && exposes[pointers[id]] == Some(records[id]))
    && (forall id, id' :: id in pointers && id' in pointers && id != id' ==> pointers[id] != pointers[id'])
  }

  lemma AddOwned(exposes: Slots, pointers: map<nat, nat>, records: map<nat, Entry>, next: nat, e: Entry)
    requires Owned(exposes, pointers, records, next)
    ensures var i := FirstFree(exposes);
            Owned(Put(exposes, i, e), pointers[next := i], records[next := e], next + 1)
  {
  }

  /** Walks the array once: refuses a duplicate, and counts the records in front of the first null. */
  method FindSlot(slots: Slots, name: string, kind: string) returns (duplicate: bool, foundNull: bool, lastIndex: nat)
    ensures duplicate <==> Contains(slots, name, kind)
    ensures !duplicate ==> lastIndex == FirstFree(slots) && (foundNull <==> lastIndex < |slots|)
  {
    foundNull, lastIndex := false, 0;
    var i := 0;
    while i < |slots|
      invariant i <= |slots|
      invariant forall j :: 0 <= j < i ==> !Holds(slots, j, name, kind)
      invariant lastIndex <= i && forall j :: 0 <= j < lastIndex ==> slots[j].Some?
      invariant foundNull ==> lastIndex < i && slots[lastIndex].None?
      invariant !foundNull ==> lastIndex == i
    {
      if slots[i].None? {
        foundNull := true;
      } else {
        if slots[i].value.name == name && slots[i].value.kind == kind {
          assert Holds(slots, i, name, kind);
          return true, foundNull, lastIndex;
        }
        if !foundNull {
          lastIndex := lastIndex + 1;
        }
      }
      i := i + 1;
    }
    duplicate := false;
  }

  /** One entity with an "Exposes" array. Each record added here has an interface, which keeps the
      array index it was created with. */
  class Entity {
    var exposes: Slots
    /** The array index in the JSON pointer of each live interface of a record added here. */
    var pointers: map<nat, nat>
    /** The record each interface was created for. */
    ghost var records: map<nat, Entry>
    var next: nat

    /** Every live interface points at its own record, and no two at the same slot. */
    ghost predicate Valid()
      reads this
    {
      Owned(exposes, pointers, records, next)
    }

    constructor (exposes: Slots)
      ensures Valid() && this.exposes == exposes && pointers == map[]
    {
      this.exposes, pointers, records, next := exposes, map[], map[], 0;
    }

    method AddObjectJson(newData: NewData, matchesSchema: bool) returns (result: Added, id: nat)
      requires Valid()
      modifies this
      ensures Valid()
      ensures result.MissingNameOrType? <==> newData.name.None? || newData.kind.None?
      ensures newData.name.Some? && newData.kind.Some? ==>
                && (result.AlreadyThere? <==>
                     exists i :: 0 <= i < |old(exposes)| && old(exposes)[i].Some?
                       && old(exposes)[i].value.name == newData.name.value
                       && old(exposes)[i].value.kind == newData.kind.value)
                && (result.NotInSchema? <==>
                     !matchesSchema && !old(Contains(exposes, newData.name.value, newData.kind.value)))
      ensures !result.Added? ==> exposes == old(exposes) && pointers == old(pointers) && records == old(records)
      ensures result.Added? ==>
                var e := Entry(newData.name.value, newData.kind.value, newData.fields);
                && result.index == FirstFree(old(exposes)) && exposes == Put(old(exposes), result.index, e)
                && id !in old(pointers) && pointers == old(pointers)[id := result.index]
                   && records == old(records)[id := e]
      ensures old(Distinct(exposes)) ==> Distinct(exposes)
    {
      id := next;
      if newData.name.None? || newData.kind.None? {
        return MissingNameOrType, id;
      }
      var duplicate, foundNull, lastIndex := FindSlot(exposes, newData.name.value, newData.kind.value);
      ContainsMeans(exposes, newData.name.value, newData.kind.value);
      if duplicate {
        return AlreadyThere, id;
      }
      if !matchesSchema {
        return NotInSchema, id;
      }
      var e := Entry(newData.name.value, newData.kind.value, newData.fields);
      if Distinct(exposes) {
        PutDistinct(exposes, e);
      }
      if foundNull {
        exposes := exposes[lastIndex := Some(e)];
      } else {
        exposes := exposes + [Some(e)];
      }
      assert exposes == Put(old(exposes), lastIndex, e);
      AddOwned(old(exposes), pointers, records, next, e);
      pointers, records, next := pointers[id := lastIndex], records[id := e], next + 1;
      result := Added(lastIndex);
    }

    /** The Delete method of a record's interface, which is gone afterwards. */
    method Delete(id: nat)
      requires Valid() && id in pointers
      modifies this
      ensures Valid() && pointers == old(pointers) - {id} && records == old(records) - {id}
      ensures exposes == old(exposes)[old(pointers)[id] := None]
      ensures old(Distinct(exposes)) ==> Distinct(exposes)
    {
      exposes := exposes[pointers[id] := None];
      pointers, records := pointers - {id}, records - {id};
    }
  }

  datatype Op = Add(newData: NewData, matchesSchema: bool) | Delete(id: nat)

  /** Any run of calls: a record that is not deleted stays in the slot it was put in, and the records
      stay distinct if they were. */
  method Run(entity: Entity, ops: seq<Op>, id: nat)
    requires entity.Valid() && id in entity.pointers && Delete(id) !in ops
    modifies entity
    ensures entity.Valid() && id in entity.pointers
    ensures entity.pointers[id] == old(entity.pointers[id]) && entity.records[id] == old(entity.records[id])
    ensures entity.exposes[entity.pointers[id]] == Some(old(entity.records[id]))
    ensures old(Distinct(entity.exposes)) ==> Distinct(entity.exposes)
  {
    var i := 0;
    while i < |ops|
      invariant i <= |ops| && entity.Valid() && id in entity.pointers
      invariant entity.pointers[id] == old(entity.pointers[id]) && entity.records[id] == old(entity.records[id])
      invariant old(Distinct(entity.exposes)) ==> Distinct(entity.exposes)
    {
      match ops[i] {
        case Add(newData, matchesSchema) =>
          var result, added := entity.AddObjectJson(newData, matchesSchema);
        case Delete(other) =>
          assert ops[i] in ops;
          if other in entity.pointers {
            entity.Delete(other);
          }
      }
      i := i + 1;
    }
  }
}
