/** JBasicObjectList over its Java array, proved against the table operations. */
module ObjectList {
  import opened ObjectTable

  class JBasicObjectList {
    var objects: array?<Ref>  // null until something is stored
    var cursor: nat
    var available: int
    var length: nat

    constructor ()
      ensures Valid() && Value() == Table([], 0, 0) && objects == null
    {
      objects, cursor, available, length := null, 0, 0, 0;
    }

    ghost predicate Valid()
      reads this, objects
    {
      && (if objects == null then length == 0 && available == 0 else objects.Length == length)
      && Shaped(Value())
    }

    ghost function Value(): Table
      reads this, objects
    {
      Table(if objects == null then [] else objects[..], cursor, available)
    }

    function Size(): int
      reads this
    {
      length - available
    }

    method GrowTo(newLength: nat)
      requires Valid() && newLength >= length && newLength > 0
      modifies this
      ensures Valid() && fresh(objects) && Value() == ObjectTable.GrowTo(old(Value()), newLength)
    {
      var grown := new Ref[newLength](_ => NULL);
      if objects == null {
        available, cursor := newLength, 0;
      } else {
        forall i | 0 <= i < length {
          grown[i] := objects[i];
        }
        available := available + (newLength - length);
      }
      objects, length := grown, newLength;
    }

    method Reserve(capacity: int)
      requires Valid()
      modifies this
      ensures Valid() && (objects == old(objects) || fresh(objects))
      ensures Value() == ObjectTable.Reserve(old(Value()), capacity)
    {
      if capacity <= length {
        return;
      }
      GrowTo(capacity);
    }

    method Add(obj: Ref) returns (r: Added)
      requires Valid()
      modifies this, objects
      ensures Valid() && (objects == old(objects) || fresh(objects))
      ensures (Value(), r) == ObjectTable.Add(old(Value()), obj)
    {
      if obj == NULL {
        return Rejected;
      }
      if available == 0 {
        var growth := if length == 0 then 16 else if length < 128 then length else 128;
        GrowTo(length + growth);
      }
      r := Place(obj);
    }

    // The search loop of Add, from the cursor once around the table.
    method Place(obj: Ref) returns (r: Added)
      requires Valid()
      modifies this`available, this`cursor, objects
      ensures Valid() && (Value(), r) == ObjectTable.Place(old(Value()), obj)
    {
      r := FreeSlot();
      if r.At? {
        objects[r.index] := obj;
        available := available - 1;
        cursor := (r.index + 1) % length;
      }
    }

    method FreeSlot() returns (r: Added)
      requires Valid()
      ensures r == if length == 0 then Unreachable else Scan(Value().slots, cursor, 0)
    {
      ghost var slots := Value().slots;
      var start, i := cursor, 0;
      while i < length
        invariant 0 <= i <= length
        invariant length > 0 ==> Scan(slots, start, 0) == Scan(slots, start, i)
      {
        var index := (start + i) % length;
        if objects[index] == NULL {
          return At(index);
        }
        i := i + 1;
      }
      return Unreachable;
    }

    method Get(index: int) returns (obj: Ref)
      requires Valid()
      ensures obj == if 0 <= index < |Value().slots| then Value().slots[index] else NULL
    {
      if index < 0 || index >= length {
        return NULL;
      }
      return objects[index];
    }

    method Update(index: int, obj: Ref)
      requires Valid()
      modifies objects
      ensures Valid() && Value() == ObjectTable.Update(old(Value()), index, obj)
    {
      if index < 0 || index >= length {
        return;
      }
      objects[index] := obj;
    }

    method Remove(index: int)
      requires Valid()
      modifies this`available, this`cursor, objects
      ensures Valid() && Value() == ObjectTable.Remove(old(Value()), index)
    {
      if index < 0 || index >= length {
        return;
      }
      objects[index] := NULL;
      available := available + 1;
      cursor := index;
    }

    method Finalize()
      requires Valid()
      modifies this
      ensures Valid() && (objects == old(objects) || fresh(objects))
      ensures Value() == ObjectTable.Finalize(old(Value()))
    {
      if objects == null || length == 0 || available == 0 {
        return;
      }
      var i := length - 1;
      while i >= 0 && objects[i] == NULL
        invariant -1 <= i < length
        invariant forall k | i < k < length :: objects[k] == NULL
      {
        i := i - 1;
      }
      var newLength := i + 1;
      ExtentIs(Value().slots, newLength);
      if newLength == length {
        return;
      }
      var kept := new Ref[newLength](k requires 0 <= k < newLength reads this, objects
                                     requires objects != null && newLength <= objects.Length => objects[k]);
      assert kept[..] == objects[..newLength];
      objects, length, available := kept, newLength, 0;
      cursor := if newLength == 0 then 0 else newLength - 1;
    }

    method Clear()
      requires Valid()
      modifies this`cursor, this`available, objects
      ensures Valid() && Value() == ObjectTable.Clear(old(Value()))
    {
      if objects == null {
        return;
      }
      forall i | 0 <= i < length {
        objects[i] := NULL;
      }
      assert objects[..] == Blank(length);
      cursor, available := 0, length;
    }

    method Recycle()
      requires Valid()
      modifies this
      ensures Valid() && Value() == Table([], 0, 0)
    {
      objects, length, available, cursor := null, 0, 0, 0;
    }

    /** Takes over the content of another list and leaves that one empty. */
    method MoveFrom(other: JBasicObjectList)
      requires other.Valid() && other != this
      modifies this, other
      ensures Valid() && Value() == old(other.Value())
      ensures other.Valid() && other.Value() == Table([], 0, 0)
    {
      objects, cursor, available, length := other.objects, other.cursor, other.available, other.length;
      other.objects, other.cursor, other.available, other.length := null, 0, 0, 0;
    }
  }
}
