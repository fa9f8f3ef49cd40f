/** `ObjectId`, the 16-byte hash that identifies stored content, and its
    binary serializer: a presence flag, then the hash bytes only when the id
    is not `Empty`. The struct itself (its four `uint` fields, `TryParse`,
    `ToString`) lives in ObjectId.cs, which is not part of this model: here an
    id is the sequence of its `HashSize` bytes. */
module ObjectIds {
  import opened Wrappers

  newtype byte = x: int | 0 <= x < 256

  /** `ObjectId.HashSize`: the number of bytes of the hash. */
  const HashSize: nat := 16

  datatype ObjectId = ObjectId(hash: seq<byte>) {
    ghost predicate Valid() {
      |hash| == HashSize
    }
  }

  /** `ObjectId.Empty`: all hash bytes zero. */
  const Empty: ObjectId := ObjectId([0, 0, 0, 0, 0, 0, 0, 0, 0, 0, 0, 0, 0, 0, 0, 0])

  datatype ArchiveMode = Serialize | Deserialize

  datatype StreamError = EndOfStream

  /** `Write(bool)` of the binary writer: one byte, 1 or 0. */
  function BoolByte(b: bool): byte {
    if b then 1 else 0
  }

  /** What `Serialize` writes for `id`. */
  function Encode(id: ObjectId): (bytes: seq<byte>)
    requires id.Valid()
    ensures |bytes| == if id != Empty then 1 + HashSize else 1
    ensures bytes[0] == BoolByte(id != Empty)
    ensures id != Empty ==> bytes[1..] == id.hash
  {
    [BoolByte(id != Empty)] + (if id != Empty then id.hash else [])
  }

  /** What `Deserialize` reads from `bytes` starting at `position`: the id,
      and the position after it. `ReadBoolean` takes any non-zero byte as true.
      A stream that ends early is taken to fail: the byte-array read of the
      serialization stream is not part of this model. */
  function Decode(bytes: seq<byte>, position: nat): (r: Result<(ObjectId, nat), StreamError>)
    ensures r.Ok? ==> r.value.0.Valid() && position < r.value.1 <= |bytes|
    ensures r.Ok? ==> r.value.1 == position + 1 + (if bytes[position] != 0 then HashSize else 0)
  {
    if position >= |bytes| then Err(EndOfStream)
    else if bytes[position] == 0 then Ok((Empty, position + 1))
    else if |bytes| - (position + 1) < HashSize then Err(EndOfStream)
    else Ok((ObjectId(bytes[position + 1..position + 1 + HashSize]), position + 1 + HashSize))
  }

  /** Reading back what was written gives the same id and consumes exactly
      the bytes written, whatever follows them. */
  lemma DecodeEncode(id: ObjectId, before: seq<byte>, after: seq<byte>)
    requires id.Valid()
    ensures Decode(before + Encode(id) + after, |before|) == Ok((id, |before| + |Encode(id)|))
  {
    var bytes := before + Encode(id) + after;
    var p := |before|;
    assert bytes[p] == BoolByte(id != Empty);
    if id != Empty {
      assert bytes[p + 1..p + 1 + HashSize] == id.hash;
    }
  }

  /** A false flag reads as `Empty` and nothing more; a true flag reads the
      next `HashSize` bytes as the hash. */
  lemma DecodeFlag(bytes: seq<byte>, position: nat)
    requires position < |bytes|
    ensures bytes[position] == 0 ==> Decode(bytes, position) == Ok((Empty, position + 1))
    ensures bytes[position] != 0 && position + 1 + HashSize <= |bytes| ==>
              Decode(bytes, position) == Ok((ObjectId(bytes[position + 1..position + 1 + HashSize]), position + 1 + HashSize))
    ensures bytes[position] != 0 && position + 1 + HashSize > |bytes| ==> Decode(bytes, position) == Err(EndOfStream)
  {
  }

  /** The serialization stream: what has been written, and a read position. */
  class SerializationStream {
    var data: seq<byte>
    var position: nat

    constructor (data: seq<byte>)
      ensures this.data == data && position == 0
    {
      this.data := data;
      position := 0;
    }
  }

  /** `ObjectId.Serializer.Serialize(ref obj, mode, stream)`: the id that
      `obj` holds afterwards, or the error reading raised. */
  method SerializeObjectId(obj: ObjectId, mode: ArchiveMode, stream: SerializationStream) returns (r: Result<ObjectId, StreamError>)
    requires mode.Serialize? ==> obj.Valid()
    modifies stream
    ensures mode.Serialize? ==>
              && r == Ok(obj)
              && stream.data == old(stream.data) + Encode(obj)
              && stream.position == old(stream.position)
    ensures mode.Deserialize? ==>
              && stream.data == old(stream.data)
              && var decoded := Decode(old(stream.data), old(stream.position));
                 (decoded.Ok? ==> r == Ok(decoded.value.0) && stream.position == decoded.value.1)
                 && (decoded.Err? ==> r == Err(decoded.error))
  {
    if mode == Serialize {
      var hasId := obj != Empty;
      stream.data := stream.data + [BoolByte(hasId)];
      if hasId {
        stream.data := stream.data + obj.hash;
      }
      return Ok(obj);
    }
    if stream.position >= |stream.data| {
      return Err(EndOfStream);
    }
    var hasId := stream.data[stream.position] != 0;
    stream.position := stream.position + 1;
    if hasId {
      if |stream.data| - stream.position < HashSize {
        return Err(EndOfStream);
      }
      var id := stream.data[stream.position..stream.position + HashSize];
      stream.position := stream.position + HashSize;
      r := Ok(ObjectId(id));
    } else {
      r := Ok(Empty);
    }
  }
}
