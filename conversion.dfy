/** The value model shared by every wrapper: the untyped runtime values held by
    the borrowed collections, the static types a wrapper is instantiated at, the
    checked cast `(T)o` that guards every read, and the exceptions the wrappers
    (or the stores they delegate to) raise. */
module Conversion {

  /** A runtime value stored as `object` in an untyped collection. */
  datatype Value =
    | Null
    | IntValue(i: int)
    | StrValue(s: string)
    | BoolValue(b: bool)

  /** The type argument of a wrapper (`T`, `K` or `V`), and the runtime type of a value. */
  datatype TypeTag = ObjectType | IntType | StringType | BoolType

  /** Reference types admit `null`; `int` and `bool` are value types. */
  predicate IsReferenceType(t: TypeTag) {
    t == ObjectType || t == StringType
  }

  /** What `GetType()` reports for a non-null value. */
  function RuntimeType(v: Value): TypeTag
    requires !v.Null?
  {
    match v
    case IntValue(_) => IntType
    case StrValue(_) => StringType
    case BoolValue(_) => BoolType
  }

  /** "Castable to t": the checked cast `(t)v` succeeds. */
  predicate HasType(v: Value, t: TypeTag) {
    if v.Null? then IsReferenceType(t) else t == ObjectType || RuntimeType(v) == t
  }

  /** The exceptions that cross this layer, by kind. */
  datatype Error =
    | InvalidCast(expected: TypeTag, actual: TypeTag)  // InvalidCastException
    | NullReference(expected: TypeTag)                  // unboxing null to a value type
    | ArgumentOutOfRange                                // index outside the backing list
    | IndexOutOfRange                                   // slot outside a destination array
    | NotSupported                                      // mutation of a read-only collection
    | KeyNotFound                                       // KeyNotFoundException
    | DuplicateKey                                      // ArgumentException from Add
    | InvalidOperation                                  // InvalidOperationException
    | BufferError                                       // Python's BufferError

  datatype Option<T> = None | Some(value: T)

  /** A value-returning operation: its result, or the exception it raises. */
  datatype Result<T> = Ok(value: T) | Err(error: Error)

  /** A void operation: it returns, or it raises. */
  datatype Outcome = Pass | Fail(error: Error)

  /** The exception a failing `(t)v` raises. */
  function MismatchError(v: Value, t: TypeTag): Error {
    if v.Null? then NullReference(t) else InvalidCast(t, RuntimeType(v))
  }

  /** The checked cast `(t)v`: it never changes the value, it fails exactly when
      `v` is not a `t`, and its error names `t` and, for a non-null value, the
      value's runtime type. */
  function Cast(v: Value, t: TypeTag): (r: Result<Value>)
    ensures r.Ok? <==> HasType(v, t)
    ensures r.Ok? ==> r.value == v
    ensures r.Err? && !v.Null? ==> r.error == InvalidCast(t, RuntimeType(v))
    ensures r.Err? && v.Null? ==> r.error == NullReference(t) && !IsReferenceType(t)
  {
    if HasType(v, t) then Ok(v) else Err(MismatchError(v, t))
  }

  /** `default(t)`: null for a reference type, zero or false for a value type. */
  function Default(t: TypeTag): (v: Value)
    ensures HasType(v, t)
    ensures v.Null? <==> IsReferenceType(t)
  {
    match t
    case IntType => IntValue(0)
    case BoolType => BoolValue(false)
    case _ => Null
  }

  /** The index of the first failed conversion in `rs`, or `|rs|` if there is none. */
  function FirstFailure<E>(rs: seq<Result<E>>): (n: nat)
    ensures n <= |rs|
    ensures forall i :: 0 <= i < n ==> rs[i].Ok?
    ensures n < |rs| ==> rs[n].Err?
  {
    if rs == [] || rs[0].Err? then 0 else 1 + FirstFailure(rs[1..])
  }

  /** What the successive `MoveNext` calls of an iterator block over `rs`
      deliver: the results in order up to and including the first failure. An
      iterator whose body has thrown is finished, so nothing after that failure
      is ever delivered. */
  function Delivered<E>(rs: seq<Result<E>>): (d: seq<Result<E>>)
    ensures |d| <= |rs| && d == rs[..|d|]
    ensures forall i :: 0 <= i < |d| - 1 ==> d[i].Ok?
    ensures |d| < |rs| ==> 0 < |d| && d[|d| - 1].Err?
    ensures (forall i :: 0 <= i < |rs| ==> rs[i].Ok?) ==> d == rs
  {
    var n := FirstFailure(rs);
    if n == |rs| then rs else rs[..n + 1]
  }

  /** The element-wise casts of `s` to `t`, in order. */
  function CastEach(s: seq<Value>, t: TypeTag): (rs: seq<Result<Value>>)
    ensures |rs| == |s|
    ensures forall i :: 0 <= i < |s| ==> rs[i] == Cast(s[i], t)
  {
    seq(|s|, i requires 0 <= i < |s| => Cast(s[i], t))
  }

  /** What a loop `foreach (object o in s) res.Add((t)o)` produces: the whole of
      `s` when every element is a `t`, otherwise the error of the first element
      that is not. */
  function CastAll(s: seq<Value>, t: TypeTag): (r: Result<seq<Value>>)
    ensures r.Ok? <==> forall i :: 0 <= i < |s| ==> HasType(s[i], t)
    ensures r.Ok? ==> r.value == s
    ensures r.Err? ==> exists k :: 0 <= k < |s| && !HasType(s[k], t) && r.error == MismatchError(s[k], t)
                                   && forall i :: 0 <= i < k ==> HasType(s[i], t)
  {
    var n := FirstFailure(CastEach(s, t));
    if n == |s| then Ok(s) else Err(MismatchError(s[n], t))
  }

  /** The loop that builds a typed list from an untyped collection. */
  method ConvertAll(source: seq<Value>, t: TypeTag) returns (r: Result<seq<Value>>)
    ensures r == CastAll(source, t)
  {
    var res: seq<Value> := [];
    var i := 0;
    while i < |source|
      invariant 0 <= i <= |source|
      invariant forall j :: 0 <= j < i ==> HasType(source[j], t)
      invariant res == source[..i]
    {
      var c := Cast(source[i], t);
      if c.Err? {
        return Err(c.error);
      }
      res := res + [c.value];
      i := i + 1;
    }
    assert res == source;
    return Ok(res);
  }

  /** How many of `n` consecutive slots `start, start + 1, ...` lie inside an array
      of length `len` before the first one that does not. */
  function SlotsInRange(start: int, n: nat, len: nat): (k: nat)
    ensures k <= n
    ensures 0 < k ==> 0 <= start && start + k <= len
    ensures k < n ==> !(0 <= start + k < len)
  {
    if start < 0 || len <= start then 0
    else if n <= len - start then n
    else len - start
  }

  /** How many slots a CopyTo loop over the conversions `rs` fills before it stops:
      element `i` is converted first and then stored at `start + i`, so the loop
      stops at the first failed conversion or the first slot outside the array. */
  function CopyCount<E>(rs: seq<Result<E>>, start: int, len: nat): (w: nat)
    ensures w <= |rs|
    ensures forall i :: 0 <= i < w ==> rs[i].Ok?
    ensures 0 < w ==> 0 <= start && start + w <= len
    ensures w < |rs| ==> rs[w].Err? || !(0 <= start + w < len)
  {
    var f, s := FirstFailure(rs), SlotsInRange(start, |rs|, len);
    if f <= s then f else s
  }

  /** How a CopyTo loop over `rs` ends: it returns when every element was
      stored; otherwise it raises the failed conversion's error, or, when the
      element converted but its slot lies outside the array, IndexOutOfRange. */
  function CopyOutcome<E>(rs: seq<Result<E>>, start: int, len: nat): (o: Outcome)
    ensures o.Pass? <==> CopyCount(rs, start, len) == |rs|
    ensures o.Fail? ==> var w := CopyCount(rs, start, len);
                        if rs[w].Err? then o.error == rs[w].error else o.error == IndexOutOfRange
  {
    var w := CopyCount(rs, start, len);
    if w == |rs| then Pass
    else if rs[w].Err? then Fail(rs[w].error)
    else Fail(IndexOutOfRange)
  }

  /** A CopyTo returns normally exactly when every element converts and the
      whole destination window `[start, start + |rs|)` lies inside the array. */
  lemma CopySucceedsIff<E>(rs: seq<Result<E>>, start: int, len: nat)
    ensures CopyOutcome(rs, start, len).Pass? <==>
            (forall i :: 0 <= i < |rs| ==> rs[i].Ok?) && (|rs| == 0 || (0 <= start && start + |rs| <= len))
  {
  }

  /** No rollback: when element `k` is the first that fails to convert and the
      slots before it fit (vacuously when `k` is 0, whatever `start` is), the
      `k` earlier elements have been stored and the CopyTo raises that
      element's error, not IndexOutOfRange. */
  lemma CopyStopsAtFirstFailure<E>(rs: seq<Result<E>>, start: int, len: nat, k: nat)
    requires k < |rs| && rs[k].Err?
    requires forall i :: 0 <= i < k ==> rs[i].Ok?
    requires k == 0 || (0 <= start && start + k <= len)
    ensures CopyCount(rs, start, len) == k
    ensures CopyOutcome(rs, start, len) == Fail(rs[k].error)
  {
  }

  /** Copying what an iterator delivers fills the same slots and ends the same
      way as copying every result: the loop stops at the first failure either
      way, so the results the iterator never delivers are never reached. */
  lemma CopyOfDeliveredAgrees<E>(rs: seq<Result<E>>, start: int, len: nat)
    ensures CopyCount(Delivered(rs), start, len) == CopyCount(rs, start, len)
    ensures CopyOutcome(Delivered(rs), start, len) == CopyOutcome(rs, start, len)
  {
  }
}
