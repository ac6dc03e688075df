/** `MemoryBufferWrapper` and `MemoryBufferProtocolWrapper`: the Python buffer
    protocol (PEP 3118) over a contiguous byte region. The region is an
    `array<byte>`; whether it came as `Memory<byte>` (writable) or as
    `ReadOnlyMemory<byte>` is the flag `hasMemory`, mirroring `_memory.HasValue`.
    Both types have only read-only fields, so both are values here. */
module BufferWrappers {
  import opened Conversion

  newtype byte = x: int | 0 <= x < 256

  /** The request flags of `GetBuffer`, a bit mask with the PEP 3118 values. */
  type BufferFlags = bv32

  const WritableFlag: BufferFlags := 0x0001  // PyBUF_WRITABLE
  const FormatFlag: BufferFlags := 0x0004    // PyBUF_FORMAT

  /** `Enum.HasFlag`: every bit of `flag` is set in `flags`. */
  predicate HasFlag(flags: BufferFlags, flag: BufferFlags) {
    flags & flag == flag
  }

  /** A buffer view: a flat, one-dimensional sequence of bytes. */
  datatype MemoryBufferWrapper = MemoryBufferWrapper(rom: array<byte>, hasMemory: bool, flags: BufferFlags)
  {
    predicate IsReadOnly() {
      !hasMemory
    }

    /** `AsReadOnlySpan`: the whole region, `ItemCount` bytes; for a writable view
        it reads the same bytes as the array `AsSpan` hands out. */
    function AsReadOnlySpan(): (r: seq<byte>)
      reads rom
      ensures |r| == ItemCount()
      ensures forall i :: 0 <= i < |r| ==> r[i] == rom[i]
      ensures AsSpan().Ok? ==> r == AsSpan().value[..]
    {
      rom[..]
    }

    /** `AsSpan`: the writable region, or InvalidOperation for a read-only view. */
    function AsSpan(): (r: Result<array<byte>>)
      ensures r.Ok? <==> !IsReadOnly()
      ensures r.Ok? ==> r.value == rom
      ensures r.Err? ==> r.error == InvalidOperation
    {
      if hasMemory then Ok(rom) else Err(InvalidOperation)
    }

    function Offset(): int {
      0
    }

    function Format(): Option<string> {
      if HasFlag(flags, FormatFlag) then Some("B") else None
    }

    function ItemCount(): nat {
      rom.Length
    }

    function ItemSize(): nat {
      1
    }

    function NumOfDims(): nat {
      1
    }

    function Shape(): Option<seq<int>> {
      None
    }

    function Strides(): Option<seq<int>> {
      None
    }

    function SubOffsets(): Option<seq<int>> {
      None
    }
  }

  /** A buffer source over one region, built from `Memory<byte>` (`hasMemory`)
      or from `ReadOnlyMemory<byte>`. */
  datatype MemoryBufferProtocolWrapper = MemoryBufferProtocolWrapper(rom: array<byte>, hasMemory: bool)
  {
    /** `GetBuffer`: a mutable region always yields a writable view, whatever the
        flags; a read-only region refuses a Writable request with BufferError and
        otherwise yields a read-only view. Every view covers the whole region as a
        flat byte sequence, and carries the format "B" exactly when Format was
        requested. */
    function GetBuffer(flags: BufferFlags): (r: Result<MemoryBufferWrapper>)
      ensures hasMemory ==> r.Ok? && !r.value.IsReadOnly()
      ensures !hasMemory && HasFlag(flags, WritableFlag) ==> r == Err(BufferError)
      ensures !hasMemory && !HasFlag(flags, WritableFlag) ==> r.Ok? && r.value.IsReadOnly()
      ensures r.Ok? ==> r.value.rom == rom && r.value.AsSpan().Ok? == hasMemory
      ensures r.Ok? ==> && r.value.ItemCount() == rom.Length && r.value.ItemSize() == 1
                        && r.value.NumOfDims() == 1 && r.value.Offset() == 0
                        && r.value.Shape().None? && r.value.Strides().None? && r.value.SubOffsets().None?
      ensures r.Ok? ==> (r.value.Format() == Some("B") <==> HasFlag(flags, FormatFlag))
                        && (r.value.Format().None? <==> !HasFlag(flags, FormatFlag))
    {
      if hasMemory then
        Ok(MemoryBufferWrapper(rom, true, flags))
      else if HasFlag(flags, WritableFlag) then
        Err(BufferError)
      else
        Ok(MemoryBufferWrapper(rom, false, flags))
    }
  }

  /** No view of a read-only region ever hands out a writable span, whatever
      the flags asked for. */
  lemma ReadOnlyRegionNeverWritable(source: MemoryBufferProtocolWrapper, flags: BufferFlags)
    requires !source.hasMemory
    ensures source.GetBuffer(flags).Ok? ==> source.GetBuffer(flags).value.AsSpan() == Err(InvalidOperation)
  {
  }

  /** Bytes written through the span of a writable view are what any view
      acquired afterwards from the same source reads back. */
  method WriteThroughThenReadBack(region: array<byte>, bytes: seq<byte>, readFlags: BufferFlags) returns (observed: seq<byte>)
    requires |bytes| == region.Length
    modifies region
    ensures observed == bytes
  {
    var source := MemoryBufferProtocolWrapper(region, true);
    var view := source.GetBuffer(WritableFlag);
    var span := view.value.AsSpan();
    var target := span.value;
    var i := 0;
    while i < target.Length
      invariant target == region
      invariant 0 <= i <= target.Length
      invariant target[..i] == bytes[..i]
    {
      target[i] := bytes[i];
      i := i + 1;
    }
    var later := source.GetBuffer(readFlags);
    observed := later.value.AsReadOnlySpan();
  }
}
