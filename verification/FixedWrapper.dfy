/** The one-field FlatBuffers table that carries a fixed-layout payload in an MCAP message. */
module FixedWrapper {
  import opened Bytes
  import opened Options

  /** The two's-complement bytes of -(size as i32). */
  function NegatedI32(size: nat): nat {
    (U32_LIMIT - size % U32_LIMIT) % U32_LIMIT
  }

  /** Root offset, signed vtable offset, the struct, then a vtable of one slot; casts to u16 truncate. */
  function Layout(payload: Sample): (message: Sample)
    ensures |message| == |payload| + 14
  {
    var objectSize := |payload| + 4;
    Le(4, 4) + Le(NegatedI32(objectSize), 4) + payload + Le(6, 2) + Le(objectSize, 2) + Le(4, 2)
  }

  /** What wrapping gives, None being its error: the object size of a larger payload does not fit the vtable's u16. */
  function Wrapped(payload: Sample): Option<Sample> {
    if |payload| <= 65531 then Some(Layout(payload)) else None
  }

  /** wrap_fixed_payload, which appends to its output piece by piece. */
  method Wrap(payload: Sample) returns (output: Option<Sample>)
    ensures output == Wrapped(payload)
    ensures output.Some? <==> |payload| <= 65531
  {
    var objectSize := |payload| + 4;
    if objectSize >= U64_LIMIT {
      return None;
    }
    if objectSize > U16_LIMIT - 1 || |payload| > U32_LIMIT - 1 - 14 {
      return None;
    }
    hide Le;
    var bytes: Sample := [];
    bytes := bytes + Le(4, 4);
    assert bytes == Le(4, 4);
    bytes := bytes + Le(NegatedI32(objectSize), 4);
    bytes := bytes + payload;
    bytes := bytes + Le(6, 2);
    bytes := bytes + Le(objectSize, 2);
    bytes := bytes + Le(4, 2);
    return Some(bytes);
  }

  /** unwrap_fixed_payload, with None for its errors. */
  function Unwrap(message: Sample, expected: nat): Option<Sample> {
    if expected + 14 >= U64_LIMIT then None
    else
      var objectSize := expected + 4;
      if || |message| != expected + 14
         || message[0..4] != Le(4, 4)
         || message[4..8] != Le(NegatedI32(objectSize), 4)
         || message[expected + 8..expected + 10] != Le(6, 2)
         || message[expected + 10..expected + 12] != Le(objectSize, 2)
         || message[expected + 12..expected + 14] != Le(4, 2)
      then None
      else Some(message[8..expected + 8])
  }

  lemma LayoutParts(payload: Sample)
    ensures
      var m, n := Layout(payload), |payload|;
      && m[0..4] == Le(4, 4)
      && m[4..8] == Le(NegatedI32(n + 4), 4)
      && m[8..n + 8] == payload
      && m[n + 8..n + 10] == Le(6, 2)
      && m[n + 10..n + 12] == Le(n + 4, 2)
      && m[n + 12..n + 14] == Le(4, 2)
  {
    hide Le;
  }

  lemma PartsMakeLayout(message: Sample, payload: Sample)
    requires |message| == |payload| + 14
    requires
      var n := |payload|;
      && message[0..4] == Le(4, 4)
      && message[4..8] == Le(NegatedI32(n + 4), 4)
      && message[8..n + 8] == payload
      && message[n + 8..n + 10] == Le(6, 2)
      && message[n + 10..n + 12] == Le(n + 4, 2)
      && message[n + 12..n + 14] == Le(4, 2)
    ensures message == Layout(payload)
  {
    hide Le;
    var n := |payload|;
    assert message == message[0..4] + message[4..8] + message[8..n + 8] + message[n + 8..n + 10]
                      + message[n + 10..n + 12] + message[n + 12..n + 14];
  }

  /** Unwrapping accepts a message with a payload exactly when the message is the layout of that payload. */
  lemma UnwrapInvertsLayout(message: Sample, expected: nat, payload: Sample)
    ensures Unwrap(message, expected) == Some(payload) <==>
            expected + 14 < U64_LIMIT && |payload| == expected && message == Layout(payload)
  {
    if expected + 14 < U64_LIMIT && |payload| == expected && message == Layout(payload) {
      LayoutParts(payload);
    }
    if Unwrap(message, expected) == Some(payload) {
      PartsMakeLayout(message, payload);
    }
  }

  /** Unwrapping undoes wrapping, for every payload that can be wrapped at all. */
  lemma UnwrapOfWrap(payload: Sample)
    requires |payload| <= 65531
    ensures Wrapped(payload).Some?
    ensures Unwrap(Wrapped(payload).value, |payload|) == Some(payload)
  {
    UnwrapInvertsLayout(Layout(payload), |payload|, payload);
  }

  /** Unwrapping accepts only what wrapping makes if and only if the size is at most 65531; above, the u16 truncates. */
  lemma UnwrapAcceptsOnlyWraps(expected: nat)
    requires expected + 14 < U64_LIMIT
    ensures (forall message, payload ::
               Unwrap(message, expected) == Some(payload) ==> Wrapped(payload) == Some(message))
            <==> expected <= 65531
  {
    forall message, payload | Unwrap(message, expected) == Some(payload)
      ensures expected <= 65531 ==> Wrapped(payload) == Some(message)
    {
      UnwrapInvertsLayout(message, expected, payload);
    }
    var zeros: Sample := seq(expected, _ => 0);
    UnwrapInvertsLayout(Layout(zeros), expected, zeros);
  }

  function SignedI32(bits: nat): int {
    if bits < U32_LIMIT / 2 then bits else bits - U32_LIMIT
  }

  /** Bytes from..from+width, when they are there. */
  function Slice(message: Sample, from: int, width: nat): Option<nat> {
    if 0 <= from && from + width <= |message| then Some(FromLe(message[from..from + width])) else None
  }

  /**
   * A generic table read: root offset, back by the signed vtable offset, the slot's entry if the vtable
   * is long enough, and the field that far into the table. None when anything is absent or out of bounds.
   */
  function FieldPosition(message: Sample, slot: nat): Option<nat> {
    var table := Slice(message, 0, 4);
    if table.None? then None else
    var back := Slice(message, table.value, 4);
    if back.None? then None else
    var vtable := table.value - SignedI32(back.value);
    var vtableLength := Slice(message, vtable, 2);
    if vtableLength.None? || slot >= vtableLength.value then None else
    var offset := Slice(message, vtable + slot, 2);
    if offset.None? || offset.value == 0 then None else Some(table.value + offset.value)
  }

  /** The timestamp as read from a table's first slot, and as read from a fixed-layout payload. */
  function TableTimestamp(message: Sample): Option<nat> {
    var position := FieldPosition(message, 4);
    if position.None? then None else Slice(message, position.value, 8)
  }

  function FixedTimestamp(payload: Sample): Option<nat> {
    Slice(payload, 0, 8)
  }

  lemma ReadBack(message: Sample, from: nat, width: nat, value: nat)
    requires from + width <= |message| && message[from..from + width] == Le(value, width)
    requires value < Limit(width)
    ensures Slice(message, from, width) == Some(value)
  {
    FromLeOfLe(value, width);
  }

  /** Reading the wrapper as a table reaches the embedded struct at byte 8 with every offset in bounds. */
  lemma TableReachesStruct(payload: Sample)
    requires |payload| <= 65531
    ensures FieldPosition(Layout(payload), 4) == Some(8)
    ensures Layout(payload)[8..8 + |payload|] == payload
  {
    var m, n := Layout(payload), |payload|;
    LayoutParts(payload);
    Limits();
    hide Le, FromLe, Limit, Layout;
    ReadBack(m, 0, 4, 4);
    ReadBack(m, 4, 4, NegatedI32(n + 4));
    ReadBack(m, n + 8, 2, 6);
    ReadBack(m, n + 12, 2, 4);
    assert SignedI32(NegatedI32(n + 4)) == -(n + 4);
  }

  /** The table branch reads from the wrapper what the fixed branch reads from a payload of at least 8 bytes. */
  lemma TimestampsAgree(payload: Sample)
    requires 8 <= |payload| <= 65531
    ensures TableTimestamp(Layout(payload)) == FixedTimestamp(payload)
    ensures FixedTimestamp(payload).Some?
  {
    TableReachesStruct(payload);
    assert Layout(payload)[8..16] == Layout(payload)[8..8 + |payload|][0..8];
  }
}
