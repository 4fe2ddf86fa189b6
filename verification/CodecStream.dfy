/** Decoding arbitrary bytes: what follows a value does not matter, and less than a value is rejected. */
module CodecStream {
  import opened BinaryCodec
  import opened Bytes
  import opened CodecRoundTrip
  import opened Order
  import opened Schemas
  import opened Wrappers

  // ----- More bytes change nothing -----

  /** Reading longer bytes gives the same, with more left over; only running past the end may turn out otherwise. */
  ghost predicate Stable<T(!new)>(short: Result<Read<T>, DecodeError>, long: Result<Read<T>, DecodeError>, more: Text) {
    match short
    case Ok(read) => long == Ok(Read(read.value, read.rest + more))
    case Err(e) => e.PastEnd? || long == Err(e)
  }

  lemma TakeIsStable(bytes: Text, more: Text, n: nat)
    ensures Stable(Take(bytes, n), Take(bytes + more, n), more)
  {
    if n <= |bytes| {
      assert (bytes + more)[..n] == bytes[..n] && (bytes + more)[n..] == bytes[n..] + more;
    }
  }

  lemma U32IsStable(bytes: Text, more: Text)
    ensures Stable(ReadU32(bytes), ReadU32(bytes + more), more)
  {
    TakeIsStable(bytes, more, 4);
  }

  lemma StringIsStable(bytes: Text, more: Text)
    ensures Stable(ReadString(bytes), ReadString(bytes + more), more)
  {
    U32IsStable(bytes, more);
    if ReadU32(bytes).Ok? {
      var length := ReadU32(bytes).value;
      TakeIsStable(length.rest, more, length.value);
    }
  }

  lemma NumberIsStable(f: Floats, format: Format, bytes: Text, more: Text)
    ensures Stable(ReadNumber(f, format, bytes), ReadNumber(f, format, bytes + more), more)
  {
    TakeIsStable(bytes, more, Width(format));
  }

  lemma {:induction false} ComponentsAreStable(f: Floats, formats: seq<Format>, bytes: Text, more: Text, done: seq<Num>)
    ensures Stable(ReadComponents(f, formats, bytes, done), ReadComponents(f, formats, bytes + more, done), more)
    decreases |formats|
  {
    if formats != [] {
      NumberIsStable(f, formats[0], bytes, more);
      if ReadNumber(f, formats[0], bytes).Ok? {
        var first := ReadNumber(f, formats[0], bytes).value;
        ComponentsAreStable(f, formats[1..], first.rest, more, done + [first.value]);
      }
    }
  }

  /** Trailing bytes never change what is decoded, nor any error but running past the end. */
  lemma {:induction false} TrailingBytesDoNotMatter(f: Floats, schema: Schema, bytes: Text, more: Text)
    ensures Stable(Decode(f, schema, bytes), Decode(f, schema, bytes + more), more)
    decreases schema, 1, 0
  {
    match schema {
      case StringSchema(_, _, _) => StringIsStable(bytes, more);
      case NumberSchema(format, _) => NumberIsStable(f, format, bytes, more);
      case BooleanSchema => TakeIsStable(bytes, more, 1);
      case ArraySchema(item, _, _) =>
        U32IsStable(bytes, more);
        if ReadU32(bytes).Ok? {
          var count := ReadU32(bytes).value;
          AllAreStable(f, schema, Repeated(item, count.value), count.rest, more, []);
        }
      case ObjectSchema(fields) =>
        SortedAreKeys(fields);
        AllAreStable(f, schema, SchemasFor(fields, Sorted(fields.Keys)), bytes, more, []);
      case OptionalSchema(inner) =>
        TakeIsStable(bytes, more, 1);
        if Take(bytes, 1).Ok? {
          TrailingBytesDoNotMatter(f, inner, Take(bytes, 1).value.rest, more);
        }
      case RecordSchema(item, _) =>
        U32IsStable(bytes, more);
        if ReadU32(bytes).Ok? {
          var count := ReadU32(bytes).value;
          EntriesAreStable(f, schema, item, count.value, count.rest, more, []);
        }
      case TupleSchema(items) => AllAreStable(f, schema, items, bytes, more, []);
      case EnumSchema(values) => U32IsStable(bytes, more);
      case UnionSchema(members, _) =>
        U32IsStable(bytes, more);
        if ReadU32(bytes).Ok? && ReadU32(bytes).value.value < |members| {
          TrailingBytesDoNotMatter(f, members[ReadU32(bytes).value.value], ReadU32(bytes).value.rest, more);
        }
      case PackedSchema(kind) => ComponentsAreStable(f, Layout(kind), bytes, more, []);
      case _ =>
    }
  }

  lemma {:induction false} AllAreStable(f: Floats, parent: Schema, schemas: seq<Schema>, bytes: Text, more: Text,
                                        done: seq<Value>)
    requires forall i :: 0 <= i < |schemas| ==> schemas[i] < parent
    ensures Stable(DecodeAll(f, parent, schemas, bytes, done), DecodeAll(f, parent, schemas, bytes + more, done), more)
    decreases parent, 0, |schemas|
  {
    if schemas == [] {
      DecodeNone(f, parent, schemas, bytes, done);
      DecodeNone(f, parent, schemas, bytes + more, done);
    } else {
      TrailingBytesDoNotMatter(f, schemas[0], bytes, more);
      match Decode(f, schemas[0], bytes) {
        case Err(e) =>
          DecodeFirstFails(f, parent, schemas, bytes, done, e);
          if !e.PastEnd? {
            DecodeFirstFails(f, parent, schemas, bytes + more, done, e);
          }
        case Ok(first) =>
          DecodeFirst(f, parent, schemas, bytes, done, first.value, first.rest);
          DecodeFirst(f, parent, schemas, bytes + more, done, first.value, first.rest + more);
          AllAreStable(f, parent, schemas[1..], first.rest, more, done + [first.value]);
      }
    }
  }

  lemma EntryThenStable(f: Floats, parent: Schema, item: Schema, count: nat, bytes: Text, more: Text, done: seq<Entry>,
                        first: Entry, rest: Text)
    requires item < parent && count > 0
    requires DecodeEntry(f, item, bytes) == Ok(Read(first, rest))
             && DecodeEntry(f, item, bytes + more) == Ok(Read(first, rest + more))
    requires Stable(DecodeEntries(f, parent, item, count - 1, rest, done + [first]),
                    DecodeEntries(f, parent, item, count - 1, rest + more, done + [first]), more)
    ensures Stable(DecodeEntries(f, parent, item, count, bytes, done),
                   DecodeEntries(f, parent, item, count, bytes + more, done), more)
  {
    EntryFirst(f, parent, item, count, bytes, done, first, rest);
    EntryFirst(f, parent, item, count, bytes + more, done, first, rest + more);
  }

  lemma EntryFailsStable(f: Floats, parent: Schema, item: Schema, count: nat, bytes: Text, more: Text,
                         done: seq<Entry>, e: DecodeError)
    requires item < parent && count > 0 && DecodeEntry(f, item, bytes) == Err(e)
    requires e.PastEnd? || DecodeEntry(f, item, bytes + more) == Err(e)
    ensures Stable(DecodeEntries(f, parent, item, count, bytes, done),
                   DecodeEntries(f, parent, item, count, bytes + more, done), more)
  {
    EntryFirstFails(f, parent, item, count, bytes, done, e);
    if !e.PastEnd? {
      EntryFirstFails(f, parent, item, count, bytes + more, done, e);
    }
  }

  lemma {:induction false} EntriesAreStable(f: Floats, parent: Schema, item: Schema, count: nat, bytes: Text,
                                            more: Text, done: seq<Entry>)
    requires item < parent
    ensures Stable(DecodeEntries(f, parent, item, count, bytes, done),
                   DecodeEntries(f, parent, item, count, bytes + more, done), more)
    decreases parent, 0, count
  {
    if count == 0 {
      NoEntries(f, parent, item, bytes, done);
      NoEntries(f, parent, item, bytes + more, done);
    } else {
      EntryIsStable(f, item, bytes, more);
      match DecodeEntry(f, item, bytes) {
        case Err(e) => EntryFailsStable(f, parent, item, count, bytes, more, done, e);
        case Ok(first) =>
          EntriesAreStable(f, parent, item, count - 1, first.rest, more, done + [first.value]);
          EntryThenStable(f, parent, item, count, bytes, more, done, first.value, first.rest);
      }
    }
  }

  lemma EntryIsStable(f: Floats, item: Schema, bytes: Text, more: Text)
    ensures Stable(DecodeEntry(f, item, bytes), DecodeEntry(f, item, bytes + more), more)
    decreases item, 3, 0
  {
    StringIsStable(bytes, more);
    if ReadString(bytes).Ok? {
      TrailingBytesDoNotMatter(f, item, ReadString(bytes).value.rest, more);
    }
  }

  /** Whatever decodes from some bytes, fewer than it took are rejected for ending too soon. */
  lemma PrefixIsRejected(f: Floats, schema: Schema, bytes: Text, k: nat)
    requires Decode(f, schema, bytes).Ok? && k + |Decode(f, schema, bytes).value.rest| < |bytes|
    ensures Decode(f, schema, bytes[..k]) == Err(PastEnd)
  {
    assert bytes == bytes[..k] + bytes[k..];
    TrailingBytesDoNotMatter(f, schema, bytes[..k], bytes[k..]);
  }

  /** Every strict prefix of an encoding is rejected. */
  lemma TruncatedEncodingIsRejected(f: Floats, schema: Schema, value: Value, k: nat)
    requires IsFloats(f) && Encodable(schema, value)
    ensures Encode(f, schema, value).Ok?
    ensures k < |Encode(f, schema, value).value| ==>
              Decode(f, schema, Encode(f, schema, value).value[..k]) == Err(PastEnd)
  {
    RoundTrip(f, schema, value, []);
    var bytes := Encode(f, schema, value).value;
    assert bytes + [] == bytes;
    if k < |bytes| {
      PrefixIsRejected(f, schema, bytes, k);
    }
  }
}
