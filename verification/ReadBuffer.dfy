/** The fixed buffer that a connection reads into. */
module ReadBuffer {
  import opened Bytes
  import opened RespStreams

  class SimpleBuffer {
    const buffer: array<byte>
    var dataSize: nat

    /** Nothing but zeros behind the data. */
    ghost predicate Valid()
      reads this, buffer
    {
      dataSize <= buffer.Length && forall i :: dataSize <= i < buffer.Length ==> buffer[i] == 0
    }

    ghost function Held(): (s: seq<byte>)
      reads this, buffer
      requires Valid()
    {
      buffer[..dataSize]
    }

    constructor (size: nat)
      ensures Valid() && Held() == [] && fresh(buffer) && buffer.Length == size
    {
      buffer := new byte[size](_ => 0);
      dataSize := 0;
    }

    method Clear()
      modifies `dataSize, buffer
      ensures Valid() && Held() == []
    {
      dataSize := 0;
      forall i | 0 <= i < buffer.Length {
        buffer[i] := 0;
      }
    }

    /** Drops the first `n` bytes and moves the others to the front. */
    method Read(n: nat)
      requires Valid()
      modifies `dataSize, buffer
      ensures Valid() && Held() == if n >= |old(Held())| then [] else old(Held())[n..]
    {
      if n >= dataSize {
        Clear();
        return;
      }
      var kept := dataSize - n;
      forall i | 0 <= i < kept {
        buffer[i] := buffer[n + i];
      }
      dataSize := kept;
      forall i | kept <= i < buffer.Length {
        buffer[i] := 0;
      }
    }

    /** What the socket's `read` does with the part behind the data. */
    method Fill(bytes: seq<byte>)
      requires Valid() && dataSize + |bytes| <= buffer.Length
      modifies `dataSize, buffer
      ensures Valid() && Held() == old(Held()) + bytes
    {
      var start := dataSize;
      forall i | 0 <= i < |bytes| {
        buffer[start + i] := bytes[i];
      }
      dataSize := dataSize + |bytes|;
    }
  }
}
