/**
  * JBasicObjectMap over its two Java arrays, proved to be a finite map: whatever is added, removed,
  * reserved, compacted, cleared, recycled or moved, lookups agree with `contents`.
  */
module ObjectMap {
  import opened ObjectTable

  ghost predicate DistinctKeys(keys: seq<Ref>) {
    forall i, j | 0 <= i < j < |keys| && keys[i] != NULL :: keys[i] != keys[j]
  }

  /** The rows with a key are exactly the entries of the map. */
  ghost predicate Represents(keys: seq<Ref>, values: seq<Ref>, contents: map<Ref, Ref>) {
    && |values| == |keys|
    && (forall i | 0 <= i < |keys| && keys[i] != NULL :: keys[i] in contents && contents[keys[i]] == values[i])
    && (forall k | k in contents :: k != NULL && k in keys)
  }

  ghost predicate InOrder(keys: seq<Ref>, values: seq<Ref>, cursor: int, available: int, contents: map<Ref, Ref>) {
    && DistinctKeys(keys) && Represents(keys, values, contents)
    && available == Nulls(keys) && 0 <= cursor && (cursor < |keys| || (cursor == 0 && keys == []))
  }

  /** The count is exact, and the map has one entry for each of the other rows. */
  lemma {:induction false} SizeIsExact(keys: seq<Ref>, values: seq<Ref>, contents: map<Ref, Ref>)
    requires DistinctKeys(keys) && Represents(keys, values, contents)
    ensures |contents| == |keys| - Nulls(keys)
  {
    if keys == [] {
      assert forall k :: k !in contents;
    } else {
      var n := |keys| - 1;
      var rest := contents - {keys[n]};
      LastRow(keys, values, contents);
      SizeIsExact(keys[..n], values[..n], rest);
      if keys[n] != NULL {
        assert contents.Keys == rest.Keys + {keys[n]};
      } else {
        assert contents.Keys == rest.Keys;
      }
    }
  }

  lemma LastRow(keys: seq<Ref>, values: seq<Ref>, contents: map<Ref, Ref>)
    requires DistinctKeys(keys) && Represents(keys, values, contents) && keys != []
    ensures
      var n := |keys| - 1;
      DistinctKeys(keys[..n]) && Represents(keys[..n], values[..n], contents - {keys[n]})
  {
    var n := |keys| - 1;
    forall k | k in contents - {keys[n]} ensures k in keys[..n] {
      var i :| 0 <= i < |keys| && keys[i] == k;
      assert keys[..n][i] == k;
    }
  }

  lemma RowAdded(keys: seq<Ref>, values: seq<Ref>, cursor: int, available: int, contents: map<Ref, Ref>,
                 i: nat, key: Ref, value: Ref)
    requires InOrder(keys, values, cursor, available, contents)
    requires i < |keys| && keys[i] == NULL && key != NULL && key !in contents
    ensures InOrder(keys[i := key], values[i := value], (i + 1) % |keys|, available - 1, contents[key := value])
  {
    NullsUpdate(keys, i, key);
    var ks := keys[i := key];
    assert ks[i] == key;
    forall k | k in contents ensures k in ks {
      var j :| 0 <= j < |keys| && keys[j] == k;
      assert ks[j] == k;
    }
  }

  lemma RowRemoved(keys: seq<Ref>, values: seq<Ref>, cursor: int, available: int, contents: map<Ref, Ref>, i: nat)
    requires InOrder(keys, values, cursor, available, contents) && i < |keys| && keys[i] != NULL
    ensures InOrder(keys[i := NULL], values[i := NULL], i, available + 1, contents - {keys[i]})
  {
    NullsUpdate(keys, i, NULL);
    var ks := keys[i := NULL];
    forall k | k in contents - {keys[i]} ensures k in ks {
      var j :| 0 <= j < |keys| && keys[j] == k;
      assert ks[j] == k;
    }
  }

  lemma RowsGrown(keys: seq<Ref>, values: seq<Ref>, cursor: int, available: int, contents: map<Ref, Ref>, n: nat)
    requires InOrder(keys, values, cursor, available, contents)
    ensures InOrder(keys + Blank(n), values + Blank(n), cursor, available + n, contents)
  {
    NullsGrow(keys, n);
  }

  /** How compaction walks: rows[j] is where the j-th kept row came from. */
  ghost predicate Compacted(keys: seq<Ref>, values: seq<Ref>, i: nat, rows: seq<nat>, ks: seq<Ref>, vs: seq<Ref>) {
    && i <= |keys| == |values| && |rows| == |ks| == |vs|
    && |rows| == i - Nulls(keys[..i])
    && (forall j | 0 <= j < |rows| :: rows[j] < i && keys[rows[j]] != NULL)
    && (forall j | 0 <= j < |rows| :: ks[j] == keys[rows[j]] && vs[j] == values[rows[j]])
    && (forall j, l | 0 <= j < l < |rows| :: rows[j] < rows[l])
    && forall k | 0 <= k < i && keys[k] != NULL :: k in rows
  }

  /** Compaction loses nothing. */
  lemma CompactionKeeps(keys: seq<Ref>, values: seq<Ref>, contents: map<Ref, Ref>,
                        rows: seq<nat>, ks: seq<Ref>, vs: seq<Ref>)
    requires DistinctKeys(keys) && Represents(keys, values, contents)
    requires Compacted(keys, values, |keys|, rows, ks, vs)
    ensures InOrder(ks, vs, 0, 0, contents)
  {
    forall k | k in contents ensures k in ks {
      var i :| 0 <= i < |keys| && keys[i] == k;
      var j :| 0 <= j < |rows| && rows[j] == i;
      assert ks[j] == k;
    }
    NullsPresent(ks);
  }

  lemma CompactedStep(keys: seq<Ref>, values: seq<Ref>, i: nat, rows: seq<nat>, ks: seq<Ref>, vs: seq<Ref>)
    requires i < |keys| && Compacted(keys, values, i, rows, ks, vs)
    ensures
      if keys[i] != NULL then Compacted(keys, values, i + 1, rows + [i], ks + [keys[i]], vs + [values[i]])
      else Compacted(keys, values, i + 1, rows, ks, vs)
  {
    assert keys[..i + 1][..i] == keys[..i];
  }

  lemma {:induction false} NullsOfPrefix(slots: seq<Ref>, i: nat)
    requires i <= |slots|
    ensures i - Nulls(slots[..i]) <= |slots| - Nulls(slots)
    decreases |slots| - i
  {
    if i < |slots| {
      NullsOfPrefix(slots, i + 1);
      assert slots[..i + 1][..i] == slots[..i];
    } else {
      assert slots[..i] == slots;
    }
  }

  class JBasicObjectMap {
    var keys: array?<Ref>  // both null until something is stored
    var values: array?<Ref>
    var cursor: nat
    var available: int
    var length: nat
    ghost var contents: map<Ref, Ref>

    constructor ()
      ensures Valid() && contents == map[] && keys == null && values == null
    {
      keys, values, cursor, available, length := null, null, 0, 0, 0;
      contents := map[];
    }

    ghost function Keys(): seq<Ref>
      reads this, keys
    {
      if keys == null then [] else keys[..]
    }

    ghost function Values(): seq<Ref>
      reads this, values
    {
      if values == null then [] else values[..]
    }

    ghost predicate Valid()
      reads this, keys, values
    {
      && (keys == null <==> values == null) && (keys != null ==> keys != values)
      && |Keys()| == length && |Values()| == length
      && InOrder(Keys(), Values(), cursor, available, contents)
    }

    method Size() returns (n: int)
      requires Valid()
      ensures n == |contents|
    {
      SizeIsExact(Keys(), Values(), contents);
      n := length - available;
    }

    // A longer copy of a Java array.
    static method Grown(from: array?<Ref>, length: nat, newLength: nat) returns (to: array<Ref>)
      requires length <= newLength && length == if from == null then 0 else from.Length
      ensures fresh(to)
      ensures to[..] == (if from == null then [] else from[..]) + Blank(newLength - length)
    {
      to := new Ref[newLength](_ => NULL);
      if from != null {
        forall i | 0 <= i < length {
          to[i] := from[i];
        }
      }
    }

    method GrowTo(newLength: nat)
      requires Valid() && newLength >= length && newLength > 0
      modifies this`keys, this`values, this`cursor, this`available, this`length
      ensures Valid() && fresh(keys) && fresh(values) && length == newLength
      ensures available == old(available) + (newLength - old(length))
      ensures Keys() == old(Keys()) + Blank(newLength - old(length))
      ensures Values() == old(Values()) + Blank(newLength - old(length))
    {
      ghost var ks := Keys() + Blank(newLength - length);
      ghost var vs := Values() + Blank(newLength - length);
      RowsGrown(Keys(), Values(), cursor, available, contents, newLength - length);
      assert keys == null ==> available == 0 && cursor == 0 && length == 0;
      var newKeys := Grown(keys, length, newLength);
      var newValues := Grown(values, length, newLength);
      if keys == null {
        available, cursor := newLength, 0;
      } else {
        available := available + (newLength - length);
      }
      keys, values, length := newKeys, newValues, newLength;
      assert Keys() == ks && Values() == vs;
    }

    method Reserve(capacity: int)
      requires Valid()
      modifies this
      ensures Valid() && contents == old(contents)
      ensures length == if capacity > old(length) then capacity else old(length)
      ensures (keys == old(keys) && values == old(values)) || (fresh(keys) && fresh(values))
    {
      if capacity <= length {
        return;
      }
      GrowTo(capacity);
    }

    // The row of a key, or the length.
    method Find(key: Ref) returns (i: nat)
      requires Valid() && key != NULL
      ensures i <= length
      ensures i < length ==> Keys()[i] == key && key in contents && contents[key] == Values()[i]
      ensures i == length ==> key !in contents
    {
      i := 0;
      while i < length
        invariant i <= length && forall k | 0 <= k < i :: Keys()[k] != key
      {
        if keys[i] != NULL && keys[i] == key {
          return;
        }
        i := i + 1;
      }
    }

    // The first row without a key, searched from the cursor once around.
    method FreeRow() returns (r: Added)
      requires Valid()
      ensures r == if length == 0 then Unreachable else Scan(Keys(), cursor, 0)
    {
      ghost var slots := Keys();
      var start, i := cursor, 0;
      while i < length
        invariant 0 <= i <= length
        invariant length > 0 ==> Scan(slots, start, 0) == Scan(slots, start, i)
      {
        var index := (start + i) % length;
        if keys[index] == NULL {
          return At(index);
        }
        i := i + 1;
      }
      return Unreachable;
    }

    /** Refuses only null; its search for a free row never runs off the end. */
    method Add(key: Ref, value: Ref) returns (ok: bool)
      requires Valid()
      modifies this, keys, values
      ensures Valid() && ok == (key != NULL)
      ensures contents == if key == NULL then old(contents) else old(contents)[key := value]
      ensures length == if key == NULL || key in old(contents) || old(available) > 0 then old(length)
                        else if old(length) == 0 then 16
                        else if old(length) < 128 then 2 * old(length) else old(length) + 128
      ensures (keys == old(keys) && values == old(values)) || (fresh(keys) && fresh(values))
    {
      if key == NULL {
        return false;
      }
      var i := Find(key);
      if i < length {
        SetValue(i, value);
        return true;
      }
      if available == 0 {
        var growth := if length == 0 then 16 else if length < 128 then length else 128;
        GrowTo(length + growth);
      }
      var r := FreeRow();
      assert r.At? by {
        ScanFinds(Keys(), cursor);
      }
      SetRow(r.index, key, value);
      return true;
    }

    method SetValue(i: nat, value: Ref)
      requires Valid() && i < length && Keys()[i] != NULL
      modifies values, this`contents
      ensures Valid() && contents == old(contents)[Keys()[i] := value]
    {
      values[i] := value;
      contents := contents[keys[i] := value];
    }

    method SetRow(i: nat, key: Ref, value: Ref)
      requires Valid() && i < length && Keys()[i] == NULL && key != NULL && key !in contents
      modifies keys, values, this`contents, this`available, this`cursor
      ensures Valid() && contents == old(contents)[key := value]
    {
      RowAdded(Keys(), Values(), cursor, available, contents, i, key, value);
      keys[i] := key;
      values[i] := value;
      available := available - 1;
      cursor := (i + 1) % length;
      contents := contents[key := value];
    }

    method Get(key: Ref) returns (value: Ref)
      requires Valid()
      ensures value == if key in contents then contents[key] else NULL
    {
      if key == NULL || keys == null {
        return NULL;
      }
      var i := Find(key);
      return if i < length then values[i] else NULL;
    }

    method Remove(key: Ref)
      requires Valid()
      modifies keys, values, this`contents, this`available, this`cursor
      ensures Valid() && contents == old(contents) - {key}
    {
      if key == NULL || keys == null {
        return;
      }
      var i := Find(key);
      if i < length {
        RowRemoved(Keys(), Values(), cursor, available, contents, i);
        keys[i] := NULL;
        values[i] := NULL;
        available := available + 1;
        cursor := i;
        contents := contents - {key};
      }
    }

    /** Drops the free rows and loses nothing; an empty map keeps its rows. */
    method Finalize()
      requires Valid()
      modifies this, keys, values
      ensures Valid() && contents == old(contents)
      ensures length == if |contents| == 0 then old(length) else |contents|
      ensures (keys == old(keys) && values == old(values)) || (fresh(keys) && fresh(values))
    {
      SizeIsExact(Keys(), Values(), contents);
      if keys == null || length == 0 || available == 0 {
        return;
      }
      var count := length - available;
      if count == 0 {
        Clear();
        return;
      }
      var newKeys, newValues := Compact(count);
      keys, values := newKeys, newValues;
      length, available, cursor := count, 0, 0;
    }

    method Compact(count: nat) returns (ks: array<Ref>, vs: array<Ref>)
      requires Valid() && keys != null && count == length - available
      ensures fresh(ks) && fresh(vs) && ks != vs && ks.Length == vs.Length == count
      ensures count > 0 ==> InOrder(ks[..], vs[..], 0, 0, contents)
    {
      ks := new Ref[count](_ => NULL);
      vs := new Ref[count](_ => NULL);
      ghost var allKeys, allValues := Keys(), Values();
      var dest: nat := 0;
      ghost var rows: seq<nat> := [];
      for i := 0 to length
        invariant dest <= count
        invariant Compacted(allKeys, allValues, i, rows, ks[..dest], vs[..dest])
      {
        CompactedStep(allKeys, allValues, i, rows, ks[..dest], vs[..dest]);
        if keys[i] != NULL {
          NullsOfPrefix(allKeys, i + 1);
          ghost var row: nat := i;
          rows := rows + [row];
          ghost var before, beforeValues := ks[..dest], vs[..dest];
          ks[dest] := keys[i];
          vs[dest] := values[i];
          dest := dest + 1;
          assert ks[..dest] == before + [keys[i]] && vs[..dest] == beforeValues + [values[i]];
        }
      }
      assert allKeys[..length] == allKeys && ks[..dest] == ks[..] && vs[..dest] == vs[..];
      CompactionKeeps(allKeys, allValues, contents, rows, ks[..], vs[..]);
    }

    method Clear()
      requires Valid()
      modifies this`cursor, this`available, this`contents, keys, values
      ensures Valid() && contents == map[] && available == length && cursor == 0
    {
      if keys == null {
        assert forall k :: k !in contents;
        return;
      }
      forall i | 0 <= i < length {
        keys[i] := NULL;
      }
      forall i | 0 <= i < length {
        values[i] := NULL;
      }
      assert Keys() == [] + Blank(length);
      NullsGrow([], length);
      cursor, available := 0, length;
      contents := map[];
    }

    method Recycle()
      requires Valid()
      modifies this
      ensures Valid() && contents == map[] && keys == null && values == null
    {
      keys, values := null, null;
      length, available, cursor := 0, 0, 0;
      contents := map[];
    }

    /** Takes over the content of another map and leaves that one empty. */
    method MoveFrom(other: JBasicObjectMap)
      requires other.Valid() && other != this
      modifies this, other
      ensures Valid() && contents == old(other.contents)
      ensures keys == old(other.keys) && values == old(other.values)
      ensures other.Valid() && other.contents == map[] && other.keys == null && other.values == null
    {
      keys, values, cursor, available, length :=
        other.keys, other.values, other.cursor, other.available, other.length;
      contents := other.contents;
      other.keys, other.values := null, null;
      other.cursor, other.available, other.length := 0, 0, 0;
      other.contents := map[];
    }
  }
}
