/** `DictionaryGenericWrapper<K, V>`: a typed `IDictionary<K, V>` over a borrowed
    untyped dictionary. Values read back are cast to V, keys handed out are cast
    to K; keys given as arguments and values written are passed through as they
    are. */
module DictionaryWrapper {
  import opened Conversion
  import opened UntypedCollections

  /** The typed pair the enumerator yields for one backing entry: the key is cast
      to `k` first, then the value to `v`; either failure fails the pair. */
  function PairResult(key: Value, value: Value, k: TypeTag, v: TypeTag): (r: Result<(Value, Value)>)
    ensures r.Ok? <==> HasType(key, k) && HasType(value, v)
    ensures r.Ok? ==> r.value == (key, value)
    ensures !HasType(key, k) ==> r == Err(MismatchError(key, k))
    ensures HasType(key, k) && !HasType(value, v) ==> r == Err(MismatchError(value, v))
  {
    match Cast(key, k)
    case Err(e) => Err(e)
    case Ok(kk) =>
      match Cast(value, v)
      case Err(e) => Err(e)
      case Ok(vv) => Ok((kk, vv))
  }

  class DictionaryGenericWrapper {
    const store: UntypedDictionary  // the borrowed `self`, shared with its owner
    const k: TypeTag
    const v: TypeTag

    constructor (self: UntypedDictionary, k: TypeTag, v: TypeTag)
      ensures store == self && this.k == k && this.v == v
    {
      store := self;
      this.k := k;
      this.v := v;
    }

    /** `Add(key, value)`, forwarded: a new key goes to the end of the order; an
        existing key is an error and changes nothing. */
    method Add(key: Value, value: Value) returns (r: Outcome)
      requires store.Valid()
      modifies store
      ensures store.Valid()
      ensures store.isReadOnly ==> r == Fail(NotSupported) && store.keys == old(store.keys) && store.entries == old(store.entries)
      ensures !store.isReadOnly && key in old(store.entries) ==>
                r == Fail(DuplicateKey) && store.keys == old(store.keys) && store.entries == old(store.entries)
      ensures !store.isReadOnly && key !in old(store.entries) ==>
                r == Pass && store.keys == old(store.keys) + [key] && store.entries == old(store.entries)[key := value]
    {
      r := store.Add(key, value);
    }

    /** `ContainsKey`, forwarded. */
    function ContainsKey(key: Value): (b: bool)
      reads store
      requires store.Valid()
      ensures b <==> key in store.keys
    {
      store.ContainsKey(key)
    }

    /** `Keys`: a new list of every backing key cast to K, in the backing order;
        the first key that is not a K raises its cast error instead. */
    method Keys() returns (r: Result<seq<Value>>)
      ensures r == CastAll(store.keys, k)
      ensures r.Ok? ==> r.value == store.keys && |r.value| == Count()
    {
      r := ConvertAll(store.keys, k);
    }

    /** `Remove(key)`, forwarded: says whether the key was there. */
    method Remove(key: Value) returns (r: Result<bool>)
      requires store.Valid()
      modifies store
      ensures store.Valid()
      ensures store.isReadOnly ==> r == Err(NotSupported) && store.keys == old(store.keys) && store.entries == old(store.entries)
      ensures !store.isReadOnly ==> r == Ok(key in old(store.entries))
      ensures !store.isReadOnly ==> store.keys == RemoveFirst(old(store.keys), key) && store.entries == old(store.entries) - {key}
    {
      r := store.Remove(key);
    }

    /** `TryGetValue`: a missing key gives `(false, default(V))`; a present key
        gives `(true, value)` when its value is a V and raises the cast error when
        it is not, so a present key is never reported as missing. */
    function TryGetValue(key: Value): (r: Result<(bool, Value)>)
      reads store
      ensures key !in store.entries ==> r == Ok((false, Default(v)))
      ensures key in store.entries && HasType(store.entries[key], v) ==> r == Ok((true, store.entries[key]))
      ensures key in store.entries && !HasType(store.entries[key], v) ==> r == Err(MismatchError(store.entries[key], v))
      ensures (r.Ok? && !r.value.0) <==> key !in store.entries
    {
      var (found, outValue) := store.TryGetValue(key);
      if found then
        match Cast(outValue, v)
        case Err(e) => Err(e)
        case Ok(value) => Ok((true, value))
      else
        Ok((false, Default(v)))
    }

    /** `Values`: a new list of every backing value cast to V, in key order; the
        first value that is not a V raises its cast error instead. */
    method Values() returns (r: Result<seq<Value>>)
      requires store.Valid()
      ensures r == CastAll(store.ValuesInOrder(), v)
      ensures r.Ok? ==> |r.value| == Count() && forall i :: 0 <= i < |r.value| ==> r.value[i] == store.entries[store.keys[i]]
    {
      r := ConvertAll(store.ValuesInOrder(), v);
    }

    /** The getter of `this[key]`: KeyNotFound for a missing key, otherwise the
        value cast to V. */
    function Get(key: Value): (r: Result<Value>)
      reads store
      ensures key !in store.entries ==> r == Err(KeyNotFound)
      ensures key in store.entries ==> r == Cast(store.entries[key], v)
    {
      match store.Item(key)
      case Err(e) => Err(e)
      case Ok(value) => Cast(value, v)
    }

    /** The setter of `this[key]`, forwarded unchecked: overwrites an existing key
        in place or appends a new one. */
    method Set(key: Value, value: Value) returns (r: Outcome)
      requires store.Valid()
      modifies store
      ensures store.Valid()
      ensures store.isReadOnly ==> r == Fail(NotSupported) && store.keys == old(store.keys) && store.entries == old(store.entries)
      ensures !store.isReadOnly ==> r == Pass && store.entries == old(store.entries)[key := value]
      ensures !store.isReadOnly ==> store.keys == if key in old(store.entries) then old(store.keys) else old(store.keys) + [key]
      ensures r.Pass? ==> Get(key) == Cast(value, v)
    {
      r := store.SetItem(key, value);
    }

    /** `Add(KeyValuePair<K, V>)`, forwarded as an untyped pair. */
    method AddPair(item: (Value, Value)) returns (r: Outcome)
      requires store.Valid()
      modifies store
      ensures store.Valid()
      ensures store.isReadOnly ==> r == Fail(NotSupported) && store.keys == old(store.keys) && store.entries == old(store.entries)
      ensures !store.isReadOnly && item.0 in old(store.entries) ==>
                r == Fail(DuplicateKey) && store.keys == old(store.keys) && store.entries == old(store.entries)
      ensures !store.isReadOnly && item.0 !in old(store.entries) ==>
                r == Pass && store.keys == old(store.keys) + [item.0] && store.entries == old(store.entries)[item.0 := item.1]
    {
      r := store.Add(item.0, item.1);
    }

    /** `Clear`, forwarded. */
    method Clear() returns (r: Outcome)
      requires store.Valid()
      modifies store
      ensures store.Valid()
      ensures store.isReadOnly ==> r == Fail(NotSupported) && store.keys == old(store.keys) && store.entries == old(store.entries)
      ensures !store.isReadOnly ==> r == Pass && store.keys == [] && store.entries == map[]
    {
      r := store.Clear();
    }

    /** `Contains(KeyValuePair<K, V>)`, forwarded: the key is present and maps to that value. */
    function Contains(item: (Value, Value)): (b: bool)
      reads store
      ensures b <==> item.0 in store.entries && store.entries[item.0] == item.1
    {
      store.ContainsPair(item)
    }

    /** `GetEnumerator`: what successive `MoveNext` calls deliver, one typed pair
        per backing entry in backing order. A pair whose key is not a K or whose
        value is not a V raises its cast error when it is reached, after the pairs
        before it; the iterator is then finished, so no later entry is delivered. */
    function Enumeration(): (r: seq<Result<(Value, Value)>>)
      reads store
      requires store.Valid()
      ensures |r| <= |store.keys|
      ensures forall i :: 0 <= i < |r| ==> r[i] == PairResult(store.keys[i], store.entries[store.keys[i]], k, v)
      ensures forall i :: 0 <= i < |r| - 1 ==> r[i].Ok?
      ensures |r| < |store.keys| ==> 0 < |r| && r[|r| - 1].Err?
    {
      Delivered(seq(|store.keys|, i requires 0 <= i < |store.keys| && store.keys[i] in store.entries reads store =>
        PairResult(store.keys[i], store.entries[store.keys[i]], k, v)))
    }

    /** `CopyTo`: the pairs the enumeration delivers go to consecutive slots from
        `arrayIndex`. It stops at the first pair that fails to convert or whose
        slot is outside `dest`; earlier slots stay written, no other slot changes. */
    method CopyTo(dest: array<(Value, Value)>, arrayIndex: int) returns (r: Outcome)
      requires store.Valid()
      modifies dest
      ensures var rs := Enumeration();
              var w := CopyCount(rs, arrayIndex, dest.Length);
              && r == CopyOutcome(rs, arrayIndex, dest.Length)
              && (forall i :: 0 <= i < w ==> dest[arrayIndex + i] == rs[i].value)
              && (forall j :: 0 <= j < dest.Length && !(arrayIndex <= j < arrayIndex + w) ==> dest[j] == old(dest[j]))
    {
      r := CopyDelivered(Enumeration(), dest, arrayIndex);
    }

    /** `Count`: the backing dictionary's. */
    function Count(): (n: nat)
      reads store
      ensures n == |store.keys|
    {
      store.Count()
    }

    /** `IsReadOnly`: the backing dictionary's. */
    function IsReadOnly(): (b: bool)
      reads store
      ensures b == store.isReadOnly
    {
      store.isReadOnly
    }

    /** `Remove(KeyValuePair<K, V>)`, forwarded: removes the key only when it maps
        to that value. */
    method RemovePair(item: (Value, Value)) returns (r: Result<bool>)
      requires store.Valid()
      modifies store
      ensures store.Valid()
      ensures store.isReadOnly ==> r == Err(NotSupported) && store.keys == old(store.keys) && store.entries == old(store.entries)
      ensures !store.isReadOnly && !old(Contains(item)) ==>
                r == Ok(false) && store.keys == old(store.keys) && store.entries == old(store.entries)
      ensures !store.isReadOnly && old(Contains(item)) ==>
                r == Ok(true) && store.keys == RemoveFirst(old(store.keys), item.0) && store.entries == old(store.entries) - {item.0}
    {
      r := store.RemovePair(item);
    }
  }

  /** The loop `foreach (var kvp in this) array[arrayIndex++] = kvp;`: each
      delivered pair is stored at the next slot, and the loop ends at the first
      pair that raised or whose slot is outside `dest`. */
  method CopyDelivered<E>(pairs: seq<Result<E>>, dest: array<E>, arrayIndex: int) returns (r: Outcome)
    modifies dest
    ensures var w := CopyCount(pairs, arrayIndex, dest.Length);
            && r == CopyOutcome(pairs, arrayIndex, dest.Length)
            && (forall i :: 0 <= i < w ==> dest[arrayIndex + i] == pairs[i].value)
            && (forall j :: 0 <= j < dest.Length && !(arrayIndex <= j < arrayIndex + w) ==> dest[j] == old(dest[j]))
  {
    ghost var w := CopyCount(pairs, arrayIndex, dest.Length);
    var index := arrayIndex;
    var i := 0;
    while i < |pairs|
      invariant 0 <= i <= w && index == arrayIndex + i
      invariant forall j :: 0 <= j < i ==> dest[arrayIndex + j] == pairs[j].value
      invariant forall j :: 0 <= j < dest.Length && !(arrayIndex <= j < index) ==> dest[j] == old(dest[j])
    {
      if pairs[i].Err? {
        return Fail(pairs[i].error);
      }
      if !(0 <= index < dest.Length) {
        return Fail(IndexOutOfRange);
      }
      dest[index] := pairs[i].value;
      index := index + 1;
      i := i + 1;
    }
    return Pass;
  }

  /** `TryGetValue` and the indexer agree: a key that the indexer reads as `x`
      is found by `TryGetValue` with `x`, a key the indexer does not find is
      reported absent, and a value that is not a V makes both raise the same
      cast error. */
  lemma TryGetValueAgreesWithIndexer(d: DictionaryGenericWrapper, key: Value)
    ensures d.Get(key).Ok? ==> d.TryGetValue(key) == Ok((true, d.Get(key).value))
    ensures d.Get(key) == Err(KeyNotFound) <==> d.TryGetValue(key) == Ok((false, Default(d.v)))
    ensures d.Get(key).Err? && d.Get(key) != Err(KeyNotFound) ==> d.TryGetValue(key) == Err(d.Get(key).error)
  {
  }
}
