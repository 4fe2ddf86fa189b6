/** The growable writer and the bounds-checked reader the codec is driven with. */
module BinaryBuffer {
  import opened BinaryCodec
  import opened Bytes
  import opened Schemas
  import opened Wrappers

  class BinaryWriter {
    var buf: array<byte>
    var capacity: nat
    var offset: nat
    ghost const initial: nat
    ghost var copied: nat

    /** All the bytes copied by growing never exceed what the capacity has grown by. */
    ghost predicate Valid()
      reads this, buf
    {
      && capacity == buf.Length && offset <= capacity
      && 0 < initial && copied + initial <= capacity
    }

    ghost function Contents(): Text
      reads this, buf
      requires Valid()
    {
      buf[..offset]
    }

    constructor (initialCapacity: nat)
      requires initialCapacity > 0
      ensures Valid() && fresh(buf) && Contents() == [] && initial == initialCapacity
    {
      capacity := initialCapacity;
      buf := new byte[initialCapacity](_ => 0);
      offset := 0;
      initial := initialCapacity;
      copied := 0;
    }

    method Ensure(extra: nat)
      requires Valid()
      modifies this
      ensures Valid() && offset == old(offset) && offset + extra <= capacity
      ensures Contents() == old(Contents())
      ensures buf == old(buf) || fresh(buf)
      ensures capacity == old(capacity) || (old(capacity) * 2 <= capacity && copied == old(copied) + offset)
    {
      var required := offset + extra;
      if required <= capacity {
        return;
      }
      var nextCapacity := capacity * 2;
      while nextCapacity < required
        invariant nextCapacity >= capacity * 2
        decreases required - nextCapacity
      {
        nextCapacity := nextCapacity * 2;
      }
      var grown := new byte[nextCapacity](_ => 0);
      forall i | 0 <= i < offset {
        grown[i] := buf[i];
      }
      assert grown[..offset] == buf[..offset];
      copied := copied + offset;
      buf := grown;
      capacity := nextCapacity;
    }

    method Write(bytes: Text)
      requires Valid()
      modifies this, buf
      ensures Valid() && (buf == old(buf) || fresh(buf))
      ensures Contents() == old(Contents()) + bytes
    {
      Ensure(|bytes|);
      forall i | 0 <= i < |bytes| {
        buf[offset + i] := bytes[i];
      }
      assert buf[..offset] == old(Contents());
      offset := offset + |bytes|;
      assert buf[..offset] == old(Contents()) + bytes;
    }

    method WriteU8(value: byte)
      requires Valid()
      modifies this, buf
      ensures Valid() && (buf == old(buf) || fresh(buf))
      ensures Contents() == old(Contents()) + [value]
    {
      Write([value]);
    }

    method WriteU32(value: nat)
      requires Valid()
      modifies this, buf
      ensures Valid() && (buf == old(buf) || fresh(buf))
      ensures Contents() == old(Contents()) + U32Bytes(value)
    {
      Write(U32Bytes(value));
    }

    method WriteNumber(f: Floats, value: Num, format: Format)
      requires Valid() && Admits(format, value)
      modifies this, buf
      ensures Valid() && (buf == old(buf) || fresh(buf))
      ensures Contents() == old(Contents()) + NumberBytes(f, value, format)
    {
      Write(NumberBytes(f, value, format));
    }

    method WriteString(value: Text)
      requires Valid()
      modifies this, buf
      ensures Valid() && (buf == old(buf) || fresh(buf))
      ensures Contents() == old(Contents()) + StringBytes(value)
    {
      WriteU32(|value|);
      Write(value);
    }

    method Finish() returns (out: Text)
      requires Valid()
      ensures out == Contents()
    {
      out := buf[..offset];
    }
  }

  class BinaryReader {
    const buf: Text
    var offset: nat

    ghost predicate Valid()
      reads this
    {
      offset <= |buf|
    }

    ghost function Left(): Text
      reads this
      requires Valid()
    {
      buf[offset..]
    }

    constructor (bytes: Text)
      ensures Valid() && buf == bytes && offset == 0
    {
      buf, offset := bytes, 0;
    }

    /** The reading went as the bytes left say, and went on to the bytes after it. */
    ghost predicate Has<T(!new)>(spec: Result<Read<T>, DecodeError>, r: Result<T, DecodeError>)
      reads this
    {
      Valid() &&
      match spec
      case Ok(read) => r == Ok(read.value) && Left() == read.rest
      case Err(e) => r == Err(e)
    }

    method ReadBytes(n: nat) returns (r: Result<Text, DecodeError>)
      requires Valid()
      modifies this`offset
      ensures Has(Take(old(Left()), n), r)
    {
      if offset + n > |buf| {
        return Err(PastEnd);
      }
      r := Ok(buf[offset..offset + n]);
      assert buf[offset..][..n] == buf[offset..offset + n];
      assert buf[offset..][n..] == buf[offset + n..];
      offset := offset + n;
    }

    method ReadU8() returns (r: Result<byte, DecodeError>)
      requires Valid()
      modifies this`offset
      ensures Valid()
      ensures match Take(old(Left()), 1)
              case Ok(read) => r == Ok(read.value[0]) && Left() == read.rest
              case Err(e) => r == Err(e)
    {
      var bytes :- ReadBytes(1);
      r := Ok(bytes[0]);
    }

    method ReadU32() returns (r: Result<nat, DecodeError>)
      requires Valid()
      modifies this`offset
      ensures Has(BinaryCodec.ReadU32(old(Left())), r)
    {
      var bytes :- ReadBytes(4);
      r := Ok(FromLittle(bytes));
    }

    method ReadNumber(f: Floats, format: Format) returns (r: Result<Num, DecodeError>)
      requires Valid()
      modifies this`offset
      ensures Has(BinaryCodec.ReadNumber(f, format, old(Left())), r)
    {
      var bytes :- ReadBytes(Width(format));
      r := Ok(FromCode(f, FromLittle(bytes), format));
    }

    method ReadString() returns (r: Result<Text, DecodeError>)
      requires Valid()
      modifies this`offset
      ensures Has(BinaryCodec.ReadString(old(Left())), r)
    {
      var length :- ReadU32();
      r := ReadBytes(length);
    }
  }
}
