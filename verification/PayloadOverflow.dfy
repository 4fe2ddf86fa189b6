/** The compiler's payload bound in the 64 bits it is computed in. */
module PayloadOverflow {
  import opened BinaryCodec
  import opened BinaryMessages
  import opened Bytes
  import opened CodecRoundTrip
  import opened Order
  import opened PayloadSize
  import opened SchemaLayout
  import opened Schemas
  import opened Wrappers

  const U64_LIMIT: nat := 0x1_0000_0000_0000_0000

  function Wrap(n: nat): (r: nat)
    ensures r < U64_LIMIT && (n < U64_LIMIT ==> r == n)
  {
    n % 0x1_0000_0000_0000_0000
  }

  function WrappedPlus(m: Option<nat>, n: Option<nat>): Option<nat> {
    if m.Some? && n.Some? then Some(Wrap(m.value + n.value)) else None
  }

  /** The bound as 64-bit sums and products give it; a text's bound is of 32-bit numbers and cannot go over. */
  function WrappedPayloadBytes(schema: Schema): Option<nat>
    decreases schema, 1, 0
  {
    match schema
    case StringSchema(maxLength, maxChars, _) => WrappedPlus(Some(4), MaxStringBytes(maxLength, maxChars))
    case ArraySchema(item, maxItems, _) =>
      var bytes := WrappedPayloadBytes(item);
      if maxItems.None? || bytes.None? then None else Some(Wrap(4 + Wrap(maxItems.value * bytes.value)))
    case ObjectSchema(fields) =>
      SortedAreKeys(fields);
      WrappedSum(schema, SchemasFor(fields, Sorted(fields.Keys)))
    case TupleSchema(items) => WrappedSum(schema, items)
    case OptionalSchema(inner) => WrappedPlus(Some(1), WrappedPayloadBytes(inner))
    case UnionSchema(members, _) => WrappedPlus(Some(4), WrappedLargest(schema, members))
    case _ => MaxEncodedPayloadBytes(schema)
  }

  function WrappedSum(ghost parent: Schema, schemas: seq<Schema>): Option<nat>
    requires forall i :: 0 <= i < |schemas| ==> schemas[i] < parent
    decreases parent, 0, |schemas|
  {
    if schemas == [] then Some(0) else WrappedPlus(WrappedPayloadBytes(schemas[0]), WrappedSum(parent, schemas[1..]))
  }

  function WrappedLargest(ghost parent: Schema, schemas: seq<Schema>): Option<nat>
    requires forall i :: 0 <= i < |schemas| ==> schemas[i] < parent
    decreases parent, 0, |schemas|
  {
    if schemas == [] then Some(0)
    else
      var first := WrappedPayloadBytes(schemas[0]);
      var rest := WrappedLargest(parent, schemas[1..]);
      if first.None? || rest.None? then None else Some(Max(first.value, rest.value))
  }

  /** One is there when the other is, and they are the same number exactly when that fits. */
  ghost predicate Agrees(exact: Option<nat>, wrapped: Option<nat>) {
    && (exact.None? <==> wrapped.None?)
    && (exact.Some? ==> wrapped.value < U64_LIMIT && (wrapped == exact <==> exact.value < U64_LIMIT))
  }

  lemma ProductAgrees(items: nat, exact: nat, wrapped: nat)
    requires Agrees(Some(exact), Some(wrapped))
    ensures Agrees(Some(4 + items * exact), Some(Wrap(4 + Wrap(items * wrapped))))
  {
    if items > 0 && 4 + items * exact < U64_LIMIT {
      Grows(items, exact);
    }
  }

  lemma Grows(items: nat, n: nat)
    requires items > 0
    ensures n <= items * n
  {
  }

  /** The compiler's bound is exact precisely when it is below 2^64. */
  lemma {:induction false} FitsExactly(schema: Schema)
    ensures Agrees(MaxEncodedPayloadBytes(schema), WrappedPayloadBytes(schema))
    decreases schema, 1, 0
  {
    match schema {
      case ArraySchema(item, maxItems, _) =>
        FitsExactly(item);
        if maxItems.Some? && MaxEncodedPayloadBytes(item).Some? {
          ProductAgrees(maxItems.value, MaxEncodedPayloadBytes(item).value, WrappedPayloadBytes(item).value);
        }
      case ObjectSchema(fields) =>
        SortedAreKeys(fields);
        SumFits(schema, SchemasFor(fields, Sorted(fields.Keys)));
      case TupleSchema(items) => SumFits(schema, items);
      case OptionalSchema(inner) => FitsExactly(inner);
      case UnionSchema(members, _) => LargestFits(schema, members);
      case _ =>
    }
  }

  lemma {:induction false} SumFits(parent: Schema, schemas: seq<Schema>)
    requires forall i :: 0 <= i < |schemas| ==> schemas[i] < parent
    ensures Agrees(SumOf(parent, schemas), WrappedSum(parent, schemas))
    decreases parent, 0, |schemas|
  {
    if schemas != [] {
      FitsExactly(schemas[0]);
      SumFits(parent, schemas[1..]);
    }
  }

  lemma {:induction false} LargestFits(parent: Schema, schemas: seq<Schema>)
    requires forall i :: 0 <= i < |schemas| ==> schemas[i] < parent
    ensures Agrees(LargestOf(parent, schemas), WrappedLargest(parent, schemas))
    decreases parent, 0, |schemas|
  {
    if schemas != [] {
      FitsExactly(schemas[0]);
      LargestFits(parent, schemas[1..]);
    }
  }

  /** So below 2^64 the number the compiler has bounds every encoding. */
  lemma ComputedBoundHolds(f: Floats, schema: Schema, value: Value, limit: nat)
    requires IsFloats(f) && Valid(schema, value) && WrappedPayloadBytes(schema) == Some(limit)
    requires MaxEncodedPayloadBytes(schema).Some? ==> MaxEncodedPayloadBytes(schema).value < U64_LIMIT
    ensures Encode(f, schema, value).Ok? && |Encode(f, schema, value).value| <= limit
  {
    FitsExactly(schema);
    EncodingIsBounded(f, schema, value);
  }

  /** A signal's size as the compiler adds it up: the frame header, the id, and the overhead of the frame. */
  function WrappedSignalBytes(signalId: Text, payload: nat): nat {
    Wrap(Wrap(Wrap(payload + BINARY_FRAME_HEADER_BYTES) + |signalId|) + WIRE_SIGNAL_FRAME_OVERHEAD_BYTES)
  }

  /** It is exact precisely when the exact total is below 2^64. */
  lemma TotalFitsExactly(signalId: Text, schema: Schema)
    requires MaxEncodedPayloadBytes(schema).Some?
    ensures WrappedPayloadBytes(schema).Some?
    ensures var total := SignalMessageBytes(signalId, MaxEncodedPayloadBytes(schema).value + BINARY_FRAME_HEADER_BYTES);
            WrappedSignalBytes(signalId, WrappedPayloadBytes(schema).value) == total <==> total < U64_LIMIT
  {
    FitsExactly(schema);
  }

  /** Then the runtime's estimate of a signal with a valid payload never exceeds what the compiler added up. */
  lemma ComputedTotalDominates(f: Floats, show: Show, signalId: Text, schema: Schema, value: Value, bytes: Text,
                               limit: nat)
    requires IsFloats(f) && Valid(schema, value) && Encode(f, schema, value) == Ok(bytes)
    requires WrappedPayloadBytes(schema) == Some(limit) && MaxEncodedPayloadBytes(schema).Some?
    requires SignalMessageBytes(signalId, MaxEncodedPayloadBytes(schema).value + BINARY_FRAME_HEADER_BYTES) < U64_LIMIT
    ensures EstimateWireBytes(SignalFrame(signalId, Message(f, show, schema, bytes)))
            <= WrappedSignalBytes(signalId, limit)
  {
    var exact := MaxEncodedPayloadBytes(schema).value;
    TotalIs(signalId, schema, limit);
    BoundDominatesEstimate(f, show, signalId, schema, value, bytes, exact);
    AtMostEqual(EstimateWireBytes(SignalFrame(signalId, Message(f, show, schema, bytes))),
                SignalMessageBytes(signalId, exact + BINARY_FRAME_HEADER_BYTES), WrappedSignalBytes(signalId, limit));
  }

  lemma TotalIs(signalId: Text, schema: Schema, limit: nat)
    requires MaxEncodedPayloadBytes(schema).Some? && WrappedPayloadBytes(schema) == Some(limit)
    requires SignalMessageBytes(signalId, MaxEncodedPayloadBytes(schema).value + BINARY_FRAME_HEADER_BYTES) < U64_LIMIT
    ensures WrappedSignalBytes(signalId, limit)
            == SignalMessageBytes(signalId, MaxEncodedPayloadBytes(schema).value + BINARY_FRAME_HEADER_BYTES)
  {
    TotalFitsExactly(signalId, schema);
  }

  lemma AtMostEqual(x: nat, y: nat, z: nat)
    requires x <= y == z
    ensures x <= z
  {
  }

  /** Lists of 2^31 lists of 2^31 - 1 four-byte numbers: the product is 2^64. */
  function WideSchema(): Schema {
    ArraySchema(ArraySchema(NumberSchema(U32, _ => true), Some(0x7FFF_FFFF), _ => true), Some(0x8000_0000), _ => true)
  }

  lemma WideBounds()
    ensures MaxEncodedPayloadBytes(WideSchema()) == Some(U64_LIMIT + 4) && WrappedPayloadBytes(WideSchema()) == Some(4)
  {
    var schema := WideSchema();
    assert MaxEncodedPayloadBytes(schema.item) == Some(0x2_0000_0000)
           && WrappedPayloadBytes(schema.item) == Some(0x2_0000_0000);
  }

  lemma EmptyListEncodes(f: Floats, schema: Schema)
    requires schema.ArraySchema?
    ensures Encode(f, schema, Table([], map[])) == Ok(U32Bytes(0))
  {
    assert EncodeAll(f, schema, ArrayParts(schema.item, [])) == Ok([]);
    FromNothing(U32Bytes(0));
  }

  lemma OneItemEncodes(f: Floats, schema: Schema, item: Value, bytes: Text)
    requires schema.ArraySchema? && Encode(f, schema.item, item) == Ok(bytes)
    ensures Encode(f, schema, Table([item], map[])) == Ok(U32Bytes(1) + bytes)
  {
    var parts := ArrayParts(schema.item, [item]);
    assert parts == [Part(schema.item, item)] && parts[1..] == [];
    assert EncodeAll(f, schema, parts[1..]) == Ok([]);
    EncodeOne(f, schema, parts, bytes, []);
    FromNothing(bytes);
  }

  /** At 2^64 it wraps to four bytes, and a list of one empty list takes eight. */
  lemma WrappedBoundIsBroken(f: Floats)
    ensures var value := Table([Table([], map[])], map[]);
            && MaxEncodedPayloadBytes(WideSchema()) == Some(U64_LIMIT + 4)
            && WrappedPayloadBytes(WideSchema()) == Some(4)
            && Valid(WideSchema(), value)
            && Encode(f, WideSchema(), value).Ok? && |Encode(f, WideSchema(), value).value| == 8
  {
    var schema := WideSchema();
    WideBounds();
    assert Supported(schema.item.item);
    EmptyListEncodes(f, schema.item);
    OneItemEncodes(f, schema, Table([], map[]), U32Bytes(0));
  }
}
