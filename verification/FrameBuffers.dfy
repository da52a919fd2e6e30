/** The fixed-size accumulation buffer of one client, changed in place. */
module FrameBuffers {
  import opened Framing

  class FrameBuffer {
    const buf: array<byte>
    var len: nat

    ghost predicate Valid()
      reads this
    {
      buf.Length == MAX_FRAME_SIZE && len <= buf.Length
    }

    /** The accumulated bytes. */
    function Data(): Bytes
      requires Valid()
      reads this, buf
    {
      buf[..len]
    }

    constructor ()
      ensures Valid() && fresh(buf) && Data() == []
    {
      buf := new byte[MAX_FRAME_SIZE](_ => 0);
      len := 0;
    }

    /** Copy `data` behind the accumulated bytes, or refuse it whole. */
    method Append(data: Bytes) returns (ok: bool)
      requires Valid()
      modifies this, buf
      ensures Valid()
      ensures ok <==> |old(Data())| + |data| <= MAX_FRAME_SIZE
      ensures Data() == if ok then old(Data()) + data else old(Data())
    {
      if |data| > buf.Length || len > buf.Length - |data| {
        return false;
      }
      for i := 0 to |data|
        modifies buf
        invariant buf[..len] == old(Data())
        invariant buf[len..len + i] == data[..i]
      {
        buf[len + i] := data[i];
      }
      ghost var before := buf[..len];
      len := len + |data|;
      assert buf[..len] == before + data;
      return true;
    }

    /** Drop the first `n` bytes and move the rest to the front. */
    method Consume(n: nat)
      requires Valid()
      modifies this, buf
      ensures Valid()
      ensures Data() == if n >= |old(Data())| then [] else old(Data())[n..]
    {
      if n >= len {
        len := 0;
        return;
      }
      for i := 0 to len - n
        modifies buf
        invariant buf[..i] == old(Data())[n..n + i]
        invariant buf[i..len] == old(Data())[i..]
      {
        assert buf[i..len][n] == old(Data())[i..][n];
        buf[i] := buf[n + i];
      }
      len := len - n;
    }
  }
}
