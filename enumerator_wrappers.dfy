/** `IEnumeratorOfTWrapper<T>` and `IEnumerableOfTWrapper<T>`: typed views of an
    untyped cursor and of an untyped source. The cursor state lives in the wrapped
    enumerator; the typed wrapper only casts what `Current` returns. */
module EnumeratorWrappers {
  import opened Conversion
  import opened UntypedCollections

  class IEnumeratorOfTWrapper {
    const enumerable: UntypedEnumerator
    const t: TypeTag

    constructor (enumerable: UntypedEnumerator, t: TypeTag)
      ensures this.enumerable == enumerable && this.t == t
    {
      this.enumerable := enumerable;
      this.t := t;
    }

    /** `Current`: the wrapped cursor's element cast to T. A cast failure names T
        and the element's runtime type; the cursor's own error (no current
        element) passes through. */
    function Current(): (r: Result<Value>)
      reads enumerable
      ensures var p, s := enumerable.position, enumerable.items;
              && (r.Ok? <==> 0 <= p < |s| && HasType(s[p], t))
              && (r.Ok? ==> r.value == s[p])
              && (0 <= p < |s| && !HasType(s[p], t) ==> r == Err(MismatchError(s[p], t)))
              && (!(0 <= p < |s|) ==> r == Err(InvalidOperation))
    {
      match enumerable.Current()
      case Err(e) => Err(e)
      case Ok(v) => Cast(v, t)
    }

    /** `MoveNext`, forwarded unchanged. */
    method MoveNext() returns (more: bool)
      requires enumerable.Valid()
      modifies enumerable
      ensures enumerable.Valid()
      ensures enumerable.position == if old(enumerable.position) < |enumerable.items|
                                     then old(enumerable.position) + 1 else old(enumerable.position)
      ensures more <==> enumerable.position < |enumerable.items|
    {
      more := enumerable.MoveNext();
    }

    /** `Reset`, forwarded unchanged: the cursor goes back before the first
        element, or, when it cannot restart, its NotSupported passes through with
        the position unchanged. */
    method Reset() returns (r: Outcome)
      requires enumerable.Valid()
      modifies enumerable
      ensures enumerable.Valid()
      ensures enumerable.canReset ==> r == Pass && enumerable.position == -1
      ensures !enumerable.canReset ==> r == Fail(NotSupported) && enumerable.position == old(enumerable.position)
    {
      r := enumerable.Reset();
    }
  }

  class IEnumerableOfTWrapper {
    const enumerable: UntypedEnumerable
    const t: TypeTag

    constructor (enumerable: UntypedEnumerable, t: TypeTag)
      ensures this.enumerable == enumerable && this.t == t
    {
      this.enumerable := enumerable;
      this.t := t;
    }

    /** Every call wraps a new cursor over the source, positioned before its first element. */
    method GetEnumerator() returns (e: IEnumeratorOfTWrapper)
      ensures fresh(e) && fresh(e.enumerable) && e.enumerable.Valid()
      ensures e.t == t && e.enumerable.items == enumerable.items && e.enumerable.position == -1
      ensures e.enumerable.canReset == enumerable.canReset
    {
      var inner := enumerable.GetEnumerator();
      e := new IEnumeratorOfTWrapper(inner, t);
    }
  }

  /** Two enumerators taken from the same source share no cursor: after the first
      has advanced twice and the second once, each reports the element at its own
      position. */
  method IndependentEnumerators(source: IEnumerableOfTWrapper) returns (first: Result<Value>, second: Result<Value>)
    ensures var s, t := source.enumerable.items, source.t;
            && first == (if 2 <= |s| then Cast(s[1], t) else Err(InvalidOperation))
            && second == (if 1 <= |s| then Cast(s[0], t) else Err(InvalidOperation))
  {
    var a := source.GetEnumerator();
    var b := source.GetEnumerator();
    var _ := a.MoveNext();
    var _ := a.MoveNext();
    var _ := b.MoveNext();
    first := a.Current();
    second := b.Current();
  }

  /** Reading the first element, resetting and reading again: a cursor that can
      restart replays from the first element; one that cannot raises
      NotSupported through the wrapper and stays where it was. */
  method ResetThenReplay(source: IEnumerableOfTWrapper) returns (reset: Outcome, replay: Result<Value>)
    requires 2 <= |source.enumerable.items|
    ensures var s, t := source.enumerable.items, source.t;
            && (source.enumerable.canReset ==> reset == Pass && replay == Cast(s[0], t))
            && (!source.enumerable.canReset ==> reset == Fail(NotSupported) && replay == Cast(s[1], t))
  {
    var e := source.GetEnumerator();
    var _ := e.MoveNext();
    reset := e.Reset();
    var _ := e.MoveNext();
    replay := e.Current();
  }
}
