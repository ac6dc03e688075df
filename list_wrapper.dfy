/** `ListGenericWrapper<T>`: a typed `IList<T>` over a borrowed untyped list.
    Reads cast the stored element to T; writes store the value unchecked; every
    other operation is forwarded to the backing list. */
module ListWrapper {
  import opened Conversion
  import opened UntypedCollections
  import opened EnumeratorWrappers

  class ListGenericWrapper {
    const store: UntypedList  // the borrowed `_value`, shared with its owner
    const t: TypeTag

    constructor (value: UntypedList, t: TypeTag)
      ensures store == value && this.t == t
    {
      store := value;
      this.t := t;
    }

    /** `IndexOf`: the first position holding `item`, or -1 when there is none. */
    function IndexOf(item: Value): (r: int)
      reads store
      ensures -1 <= r < |store.items|
      ensures r == -1 <==> item !in store.items
      ensures 0 <= r ==> store.items[r] == item && item !in store.items[..r]
    {
      store.IndexOf(item)
    }

    /** `Insert`, forwarded: no type check on the inserted item. */
    method Insert(index: int, item: Value) returns (r: Outcome)
      modifies store
      ensures store.isReadOnly ==> r == Fail(NotSupported) && store.items == old(store.items)
      ensures !store.isReadOnly && !(0 <= index <= |old(store.items)|) ==>
                r == Fail(ArgumentOutOfRange) && store.items == old(store.items)
      ensures !store.isReadOnly && 0 <= index <= |old(store.items)| ==>
                r == Pass && store.items == old(store.items)[..index] + [item] + old(store.items)[index..]
    {
      r := store.Insert(index, item);
    }

    /** `RemoveAt`, forwarded. */
    method RemoveAt(index: int) returns (r: Outcome)
      modifies store
      ensures store.isReadOnly ==> r == Fail(NotSupported) && store.items == old(store.items)
      ensures !store.isReadOnly && !(0 <= index < |old(store.items)|) ==>
                r == Fail(ArgumentOutOfRange) && store.items == old(store.items)
      ensures !store.isReadOnly && 0 <= index < |old(store.items)| ==>
                r == Pass && store.items == old(store.items)[..index] + old(store.items)[index + 1..]
    {
      r := store.RemoveAt(index);
    }

    /** The getter of `this[index]`: the stored element when it is a T, a cast
        error naming T when it is not, and the backing list's ArgumentOutOfRange
        for an index outside the list. */
    function Get(index: int): (r: Result<Value>)
      reads store
      ensures r.Ok? <==> 0 <= index < |store.items| && HasType(store.items[index], t)
      ensures r.Ok? ==> r.value == store.items[index]
      ensures 0 <= index < |store.items| && !HasType(store.items[index], t) ==>
                r == Err(MismatchError(store.items[index], t))
      ensures !(0 <= index < |store.items|) ==> r == Err(ArgumentOutOfRange)
    {
      match store.Item(index)
      case Err(e) => Err(e)
      case Ok(v) => Cast(v, t)
    }

    /** The setter of `this[index]`: the value is stored as given, and only slot
        `index` changes; reading it back casts it again. */
    method Set(index: int, value: Value) returns (r: Outcome)
      modifies store
      ensures store.isReadOnly ==> r == Fail(NotSupported) && store.items == old(store.items)
      ensures !store.isReadOnly && !(0 <= index < |old(store.items)|) ==>
                r == Fail(ArgumentOutOfRange) && store.items == old(store.items)
      ensures !store.isReadOnly && 0 <= index < |old(store.items)| ==>
                r == Pass && store.items == old(store.items)[index := value]
      ensures r.Pass? ==> Get(index) == Cast(value, t)
    {
      r := store.SetItem(index, value);
    }

    /** `Add`, forwarded: appends, so Count grows by one. */
    method Add(item: Value) returns (r: Outcome)
      modifies store
      ensures store.isReadOnly ==> r == Fail(NotSupported) && store.items == old(store.items)
      ensures !store.isReadOnly ==> r == Pass && store.items == old(store.items) + [item]
      ensures r.Pass? ==> Count() == old(Count()) + 1
    {
      r := store.Add(item);
    }

    /** `Clear`, forwarded. */
    method Clear() returns (r: Outcome)
      modifies store
      ensures store.isReadOnly ==> r == Fail(NotSupported) && store.items == old(store.items)
      ensures !store.isReadOnly ==> r == Pass && store.items == []
    {
      r := store.Clear();
    }

    /** `Contains`, forwarded: whether some slot holds `item`. */
    function Contains(item: Value): (b: bool)
      reads store
      ensures b <==> IndexOf(item) != -1
    {
      store.Contains(item)
    }

    /** `CopyTo`: element `i` is cast to T and stored at `arrayIndex + i`, in
        ascending order. The loop stops at the first element that is not a T or
        whose slot is outside `dest`; the slots written before it stay written
        and no other slot changes. */
    method CopyTo(dest: array<Value>, arrayIndex: int) returns (r: Outcome)
      modifies dest
      ensures var rs := CastEach(store.items, t);
              var w := CopyCount(rs, arrayIndex, dest.Length);
              && r == CopyOutcome(rs, arrayIndex, dest.Length)
              && (forall i :: 0 <= i < w ==> dest[arrayIndex + i] == store.items[i])
              && (forall j :: 0 <= j < dest.Length && !(arrayIndex <= j < arrayIndex + w) ==> dest[j] == old(dest[j]))
    {
      ghost var rs := CastEach(store.items, t);
      ghost var w := CopyCount(rs, arrayIndex, dest.Length);
      var i := 0;
      while i < |store.items|
        invariant 0 <= i <= w
        invariant forall k :: 0 <= k < i ==> dest[arrayIndex + k] == store.items[k]
        invariant forall j :: 0 <= j < dest.Length && !(arrayIndex <= j < arrayIndex + i) ==> dest[j] == old(dest[j])
      {
        var c := Cast(store.items[i], t);
        if c.Err? {
          return Fail(c.error);
        }
        if !(0 <= arrayIndex + i < dest.Length) {
          return Fail(IndexOutOfRange);
        }
        dest[arrayIndex + i] := c.value;
        i := i + 1;
      }
      return Pass;
    }

    /** `Count`: the backing list's. */
    function Count(): (n: nat)
      reads store
      ensures n == |store.items|
    {
      store.Count()
    }

    /** `IsReadOnly`: the backing list's. */
    function IsReadOnly(): (b: bool)
      reads store
      ensures b == store.isReadOnly
    {
      store.isReadOnly
    }

    /** `Remove`, forwarded: drops the first occurrence of `item`, if any, and
        says whether there was one. */
    method Remove(item: Value) returns (r: Result<bool>)
      modifies store
      ensures store.isReadOnly ==> r == Err(NotSupported) && store.items == old(store.items)
      ensures !store.isReadOnly ==> r == Ok(item in old(store.items)) && store.items == RemoveFirst(old(store.items), item)
    {
      r := store.Remove(item);
    }

    /** `GetEnumerator`: a new typed enumerator over a new cursor of the backing
        list; no element is cast until `Current` is read. */
    method GetEnumerator() returns (e: IEnumeratorOfTWrapper)
      ensures fresh(e) && fresh(e.enumerable) && e.enumerable.Valid()
      ensures e.t == t && e.enumerable.items == store.items && e.enumerable.position == -1
      ensures e.enumerable.canReset
    {
      var inner := store.GetEnumerator();
      e := new IEnumeratorOfTWrapper(inner, t);
    }
  }

  /** A list `[1, "x", 3]` seen as a list of int: slots 0 and 2 read back, slot 1
      raises a cast error naming int and string. */
  method MixedListScenario() returns (first: Result<Value>, second: Result<Value>, third: Result<Value>)
    ensures first == Ok(IntValue(1))
    ensures second == Err(InvalidCast(IntType, StringType))
    ensures third == Ok(IntValue(3))
  {
    var backing := new UntypedList([IntValue(1), StrValue("x"), IntValue(3)], false);
    var ints := new ListGenericWrapper(backing, IntType);
    first := ints.Get(0);
    second := ints.Get(1);
    third := ints.Get(2);
  }

  /** `Add(x)` followed by `Remove(x)` gives back the original list when `x` was
      not already in it. */
  lemma AddThenRemoveRestores(s: seq<Value>, x: Value)
    requires x !in s
    ensures RemoveFirst(s + [x], x) == s
  {
  }

  /** `Insert(i, x)` followed by `RemoveAt(i)` gives back the original list. */
  lemma InsertThenRemoveAtRestores(s: seq<Value>, i: nat, x: Value)
    requires i <= |s|
    ensures var s' := s[..i] + [x] + s[i..]; s'[..i] + s'[i + 1..] == s
  {
  }
}
