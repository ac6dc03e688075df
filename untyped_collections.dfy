/** The borrowed stores the wrappers adapt: an untyped list (`IList<object>`), an
    untyped dictionary (`IDictionary<object, object>`) whose enumeration order is
    insertion order, and an untyped cursor (`IEnumerator`) with the source it
    comes from (`IEnumerable`). They are collaborators, not part of the wrappers:
    each is given the behaviour of the .NET collection contract so that the
    wrappers' pass-through can be stated exactly. */
module UntypedCollections {
  import opened Conversion

  /** `IndexOf`: the index of the first occurrence of `x` in `s`, or -1. */
  function FirstIndexOf(s: seq<Value>, x: Value): (r: int)
    ensures -1 <= r < |s|
    ensures r == -1 <==> x !in s
    ensures 0 <= r ==> s[r] == x && x !in s[..r]
  {
    if s == [] then -1
    else if s[0] == x then 0
    else
      var k := FirstIndexOf(s[1..], x);
      if k == -1 then -1
      else
        assert s[..k + 1] == [s[0]] + s[1..][..k];
        k + 1
  }

  /** `Remove(x)` on a list: `s` without the first occurrence of `x`. */
  function RemoveFirst(s: seq<Value>, x: Value): (r: seq<Value>)
    ensures x !in s ==> r == s
    ensures x in s ==> |r| == |s| - 1
  {
    var i := FirstIndexOf(s, x);
    if i == -1 then s else s[..i] + s[i + 1..]
  }

  /** No two positions of `s` hold the same key. */
  predicate Distinct(s: seq<Value>) {
    forall i, j :: 0 <= i < j < |s| ==> s[i] != s[j]
  }

  /** Removing a key from a duplicate-free key order keeps it duplicate-free and
      drops exactly that key. */
  lemma RemoveFirstOfDistinct(s: seq<Value>, x: Value)
    requires Distinct(s)
    ensures Distinct(RemoveFirst(s, x))
    ensures forall y :: y in RemoveFirst(s, x) <==> y in s && y != x
  {
    var i := FirstIndexOf(s, x);
    if i != -1 {
      var r := s[..i] + s[i + 1..];
      assert |r| == |s| - 1;
      assert forall j :: 0 <= j < i ==> r[j] == s[j];
      assert forall j :: i <= j < |r| ==> r[j] == s[j + 1];
      forall y | y in r
        ensures y in s && y != x
      {
        var j :| 0 <= j < |r| && r[j] == y;
        if j < i { assert s[j] == y; } else { assert s[j + 1] == y; }
      }
      forall y | y in s && y != x
        ensures y in r
      {
        var m :| 0 <= m < |s| && s[m] == y;
        if m < i { assert r[m] == y; } else { assert m != i && r[m - 1] == y; }
      }
    }
  }

  /** The backing store of a ListGenericWrapper, with `List<object>` behaviour:
      indices outside the list raise ArgumentOutOfRange, and every mutation of a
      read-only list raises NotSupported before anything else is checked. */
  class UntypedList {
    var items: seq<Value>
    const isReadOnly: bool

    constructor (items: seq<Value>, isReadOnly: bool)
      ensures this.items == items && this.isReadOnly == isReadOnly
    {
      this.items := items;
      this.isReadOnly := isReadOnly;
    }

    function Count(): nat
      reads this
    {
      |items|
    }

    function Item(index: int): Result<Value>
      reads this
    {
      if 0 <= index < |items| then Ok(items[index]) else Err(ArgumentOutOfRange)
    }

    method SetItem(index: int, value: Value) returns (r: Outcome)
      modifies this
      ensures isReadOnly ==> r == Fail(NotSupported) && items == old(items)
      ensures !isReadOnly && !(0 <= index < |old(items)|) ==> r == Fail(ArgumentOutOfRange) && items == old(items)
      ensures !isReadOnly && 0 <= index < |old(items)| ==> r == Pass && items == old(items)[index := value]
    {
      if isReadOnly {
        return Fail(NotSupported);
      }
      if !(0 <= index < |items|) {
        return Fail(ArgumentOutOfRange);
      }
      items := items[index := value];
      return Pass;
    }

    method Insert(index: int, item: Value) returns (r: Outcome)
      modifies this
      ensures isReadOnly ==> r == Fail(NotSupported) && items == old(items)
      ensures !isReadOnly && !(0 <= index <= |old(items)|) ==> r == Fail(ArgumentOutOfRange) && items == old(items)
      ensures !isReadOnly && 0 <= index <= |old(items)| ==>
                r == Pass && items == old(items)[..index] + [item] + old(items)[index..]
    {
      if isReadOnly {
        return Fail(NotSupported);
      }
      if !(0 <= index <= |items|) {
        return Fail(ArgumentOutOfRange);
      }
      items := items[..index] + [item] + items[index..];
      return Pass;
    }

    method RemoveAt(index: int) returns (r: Outcome)
      modifies this
      ensures isReadOnly ==> r == Fail(NotSupported) && items == old(items)
      ensures !isReadOnly && !(0 <= index < |old(items)|) ==> r == Fail(ArgumentOutOfRange) && items == old(items)
      ensures !isReadOnly && 0 <= index < |old(items)| ==>
                r == Pass && items == old(items)[..index] + old(items)[index + 1..]
    {
      if isReadOnly {
        return Fail(NotSupported);
      }
      if !(0 <= index < |items|) {
        return Fail(ArgumentOutOfRange);
      }
      items := items[..index] + items[index + 1..];
      return Pass;
    }

    method Add(item: Value) returns (r: Outcome)
      modifies this
      ensures isReadOnly ==> r == Fail(NotSupported) && items == old(items)
      ensures !isReadOnly ==> r == Pass && items == old(items) + [item]
    {
      if isReadOnly {
        return Fail(NotSupported);
      }
      items := items + [item];
      return Pass;
    }

    method Clear() returns (r: Outcome)
      modifies this
      ensures isReadOnly ==> r == Fail(NotSupported) && items == old(items)
      ensures !isReadOnly ==> r == Pass && items == []
    {
      if isReadOnly {
        return Fail(NotSupported);
      }
      items := [];
      return Pass;
    }

    function Contains(item: Value): bool
      reads this
    {
      item in items
    }

    function IndexOf(item: Value): int
      reads this
    {
      FirstIndexOf(items, item)
    }

    method Remove(item: Value) returns (r: Result<bool>)
      modifies this
      ensures isReadOnly ==> r == Err(NotSupported) && items == old(items)
      ensures !isReadOnly ==> r == Ok(item in old(items)) && items == RemoveFirst(old(items), item)
    {
      if isReadOnly {
        return Err(NotSupported);
      }
      r := Ok(item in items);
      items := RemoveFirst(items, item);
    }

    /** `GetEnumerator`: a new cursor over the list, which can restart. */
    method GetEnumerator() returns (e: UntypedEnumerator)
      ensures fresh(e) && e.Valid()
      ensures e.items == items && e.canReset && e.position == -1
    {
      e := new UntypedEnumerator(items, true);
    }
  }

  /** The backing store of a DictionaryGenericWrapper. `keys` is the order in which
      the dictionary enumerates (insertion order, as Python's dict keeps it);
      `entries` maps each key to its value. Mutating a read-only dictionary raises
      NotSupported before anything else is checked. */
  class UntypedDictionary {
    var keys: seq<Value>
    var entries: map<Value, Value>
    const isReadOnly: bool

    ghost predicate Valid()
      reads this
    {
      && Distinct(keys)
      && forall k :: k in entries <==> k in keys
    }

    constructor (isReadOnly: bool)
      ensures Valid() && keys == [] && entries == map[] && this.isReadOnly == isReadOnly
    {
      keys := [];
      entries := map[];
      this.isReadOnly := isReadOnly;
    }

    function Count(): nat
      reads this
    {
      |keys|
    }

    function ContainsKey(key: Value): bool
      reads this
    {
      key in entries
    }

    /** The getter of `this[key]`. */
    function Item(key: Value): Result<Value>
      reads this
    {
      if key in entries then Ok(entries[key]) else Err(KeyNotFound)
    }

    /** `TryGetValue(key, out object value)`: the value is null when the key is absent. */
    function TryGetValue(key: Value): (bool, Value)
      reads this
    {
      if key in entries then (true, entries[key]) else (false, Null)
    }

    /** The `Values` collection, in key order. */
    function ValuesInOrder(): seq<Value>
      reads this
      requires Valid()
    {
      seq(|keys|, i requires 0 <= i < |keys| && keys[i] in entries reads this => entries[keys[i]])
    }

    /** `ICollection<KeyValuePair<object, object>>.Contains`. */
    function ContainsPair(item: (Value, Value)): bool
      reads this
    {
      item.0 in entries && entries[item.0] == item.1
    }

    /** The setter of `this[key]`: overwrites in place, or appends a new key. */
    method SetItem(key: Value, value: Value) returns (r: Outcome)
      requires Valid()
      modifies this
      ensures Valid()
      ensures isReadOnly ==> r == Fail(NotSupported) && keys == old(keys) && entries == old(entries)
      ensures !isReadOnly ==> r == Pass && entries == old(entries)[key := value]
      ensures !isReadOnly ==> keys == if key in old(entries) then old(keys) else old(keys) + [key]
    {
      if isReadOnly {
        return Fail(NotSupported);
      }
      if key !in entries {
        keys := keys + [key];
      }
      entries := entries[key := value];
      return Pass;
    }

    method Add(key: Value, value: Value) returns (r: Outcome)
      requires Valid()
      modifies this
      ensures Valid()
      ensures isReadOnly ==> r == Fail(NotSupported) && keys == old(keys) && entries == old(entries)
      ensures !isReadOnly && key in old(entries) ==> r == Fail(DuplicateKey) && keys == old(keys) && entries == old(entries)
      ensures !isReadOnly && key !in old(entries) ==>
                r == Pass && keys == old(keys) + [key] && entries == old(entries)[key := value]
    {
      if isReadOnly {
        return Fail(NotSupported);
      }
      if key in entries {
        return Fail(DuplicateKey);
      }
      keys := keys + [key];
      entries := entries[key := value];
      return Pass;
    }

    method Remove(key: Value) returns (r: Result<bool>)
      requires Valid()
      modifies this
      ensures Valid()
      ensures isReadOnly ==> r == Err(NotSupported) && keys == old(keys) && entries == old(entries)
      ensures !isReadOnly ==> r == Ok(key in old(entries))
      ensures !isReadOnly ==> keys == RemoveFirst(old(keys), key) && entries == old(entries) - {key}
    {
      if isReadOnly {
        return Err(NotSupported);
      }
      r := Ok(key in entries);
      RemoveFirstOfDistinct(keys, key);
      keys := RemoveFirst(keys, key);
      entries := entries - {key};
    }

    /** `ICollection<KeyValuePair<object, object>>.Remove`: removes the key only
        when it maps to that value. */
    method RemovePair(item: (Value, Value)) returns (r: Result<bool>)
      requires Valid()
      modifies this
      ensures Valid()
      ensures isReadOnly ==> r == Err(NotSupported) && keys == old(keys) && entries == old(entries)
      ensures !isReadOnly && !old(ContainsPair(item)) ==> r == Ok(false) && keys == old(keys) && entries == old(entries)
      ensures !isReadOnly && old(ContainsPair(item)) ==>
                r == Ok(true) && keys == RemoveFirst(old(keys), item.0) && entries == old(entries) - {item.0}
    {
      if isReadOnly {
        return Err(NotSupported);
      }
      if !ContainsPair(item) {
        return Ok(false);
      }
      r := Remove(item.0);
    }

    method Clear() returns (r: Outcome)
      requires Valid()
      modifies this
      ensures Valid()
      ensures isReadOnly ==> r == Fail(NotSupported) && keys == old(keys) && entries == old(entries)
      ensures !isReadOnly ==> r == Pass && keys == [] && entries == map[]
    {
      if isReadOnly {
        return Fail(NotSupported);
      }
      keys := [];
      entries := map[];
      return Pass;
    }
  }

  /** An untyped cursor (`IEnumerator`) over a snapshot of its source. `position`
      is -1 before the first `MoveNext`, the index of the current element while
      there is one, and `|items|` once the cursor has run off the end. A cursor
      that cannot restart (a compiler-generated iterator, for one) has
      `canReset` false. */
  class UntypedEnumerator {
    const items: seq<Value>
    const canReset: bool
    var position: int

    ghost predicate Valid()
      reads this
    {
      -1 <= position <= |items|
    }

    constructor (items: seq<Value>, canReset: bool)
      ensures Valid() && this.items == items && this.canReset == canReset && position == -1
    {
      this.items := items;
      this.canReset := canReset;
      position := -1;
    }

    /** `Current`: InvalidOperation before the first element and after the last. */
    function Current(): Result<Value>
      reads this
    {
      if 0 <= position < |items| then Ok(items[position]) else Err(InvalidOperation)
    }

    method MoveNext() returns (more: bool)
      requires Valid()
      modifies this
      ensures Valid()
      ensures position == if old(position) < |items| then old(position) + 1 else old(position)
      ensures more <==> position < |items|
    {
      if position < |items| {
        position := position + 1;
      }
      more := position < |items|;
    }

    /** `Reset`: back before the first element, or NotSupported, with the
        position unchanged, for a cursor that cannot restart. */
    method Reset() returns (r: Outcome)
      requires Valid()
      modifies this
      ensures Valid()
      ensures canReset ==> r == Pass && position == -1
      ensures !canReset ==> r == Fail(NotSupported) && position == old(position)
    {
      if !canReset {
        return Fail(NotSupported);
      }
      position := -1;
      return Pass;
    }
  }

  /** An untyped source (`IEnumerable`): each `GetEnumerator` call starts a new
      cursor; `canReset` says whether its cursors can restart. */
  class UntypedEnumerable {
    const items: seq<Value>
    const canReset: bool

    constructor (items: seq<Value>, canReset: bool)
      ensures this.items == items && this.canReset == canReset
    {
      this.items := items;
      this.canReset := canReset;
    }

    method GetEnumerator() returns (e: UntypedEnumerator)
      ensures fresh(e) && e.Valid()
      ensures e.items == items && e.canReset == canReset && e.position == -1
    {
      e := new UntypedEnumerator(items, canReset);
    }
  }
}
