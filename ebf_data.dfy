/**
 * EBF_Data: the opaque instrument payload of one event, held in a fixed
 * 128 KiB buffer together with its length.  On disk it is a 4-byte length
 * followed by exactly that many bytes.
 */
module Ebf {
  import opened Base
  import opened Codec
  import opened Stdio

  /** `unsigned char data[128*1024]`. */
  const Capacity: nat := 128 * 1024

  /** The vendor framing word that `init` puts in front of a payload. */
  const FrameMarker: u32 := 0x104f_0010

  /** The bytes `write` emits for a buffer whose first `len` bytes are `p`. */
  function Image(p: Bytes): (r: Bytes)
    requires |p| <= Capacity
    ensures |r| == 4 + |p|
  {
    U32(|p|) + p
  }

  /** `EBF_Data::write`: the length word, then `data[0..len)`; either fwrite may fail. */
  function WriteBlob(f: FileState, p: Bytes): (r: (FileState, Outcome))
    requires |p| <= Capacity && f.pos <= |f.bytes|
    ensures r.0.pos <= |r.0.bytes| && r.0.eof == f.eof
  {
    var (f1, ok1) := Fwrite(f, U32(|p|));
    if !ok1 then (f1, Throw(ShortWrite))
    else
      var (f2, ok2) := Fwrite(f1, p);
      if !ok2 then (f2, Throw(ShortWrite)) else (f2, Pass)
  }

  /**
   * `EBF_Data::read`: the length word, then that many bytes.  The C++ code
   * does not compare the length with the buffer; the model reports a length
   * beyond the buffer as an error instead of overrunning it.
   */
  function ReadBlob(f: FileState): (r: (FileState, Result<Bytes>))
    ensures r.0.bytes == f.bytes
    ensures r.1.Ok? ==> 0 < |r.1.value| <= Capacity
  {
    var (f1, w) := Fread(f, 4);
    if w.None? then (f1, Fail(ShortRead))
    else
      var n := DecU32(w.value);
      if n > Capacity then (f1, Fail(BufferOverflow))
      else
        var (f2, p) := Fread(f1, n);
        if p.None? then (f2, Fail(ShortRead)) else (f2, Ok(p.value))
  }

  /** `write` at the end of a file appends the image, unless the payload is empty. */
  lemma WriteBlobAppends(f: FileState, p: Bytes)
    requires |p| <= Capacity && f.pos == |f.bytes|
    ensures WriteBlob(f, p).1 == (if |p| == 0 then Throw(ShortWrite) else Pass)
    ensures |p| > 0 ==> WriteBlob(f, p).0 == f.(bytes := f.bytes + Image(p), pos := |f.bytes| + 4 + |p|)
  {
    FwriteAppends(f, U32(|p|));
    var f1 := f.(bytes := f.bytes + U32(|p|), pos := |f.bytes| + 4);
    if |p| > 0 {
      FwriteAppends(f1, p);
      assert f.bytes + U32(|p|) + p == f.bytes + Image(p);
    }
  }

  /** Round trip: reading where `write` put a non-empty payload returns it and moves past it. */
  lemma ReadBlobImage(f: FileState, p: Bytes)
    requires 0 < |p| <= Capacity && At(f, Image(p))
    ensures ReadBlob(f) == (f.(pos := f.pos + 4 + |p|), Ok(p))
  {
    AtSplit(f, U32(|p|), p);
    FreadAt(f, U32(|p|));
    U32RoundTrip(|p|);
    FreadAt(f.(pos := f.pos + 4), p);
  }

  class EbfData {
    const data: array<byte>
    var len: nat

    ghost predicate Valid()
      reads this
    {
      data.Length == Capacity && len <= Capacity
    }

    /** `data[0..len)`, the range between `start()` and `end()`. */
    ghost function Payload(): (p: Bytes)
      reads this, data
      requires Valid()
      ensures |p| == len
    {
      data[..len]
    }

    /** `EBF_Data() {}`: the C++ constructor leaves `len` uninitialised; the model starts it at 0. */
    constructor ()
      ensures Valid() && fresh(data) && len == 0
    {
      data := new byte[Capacity];
      len := 0;
    }

    /** `start()`: offset of the first payload byte. */
    function Start(): (i: nat)
      reads this
      requires Valid()
      ensures i <= End() && i == 0
    {
      0
    }

    /** `end()`: one past the last payload byte, so `[Start(), End())` is the payload. */
    function End(): (i: nat)
      reads this
      requires Valid()
      ensures i <= data.Length && i == len
    {
      len
    }

    /** `size()` is the number of payload bytes. */
    function Size(): (n: nat)
      reads this
      requires Valid()
      ensures n == End() - Start() && n <= Capacity
    {
      len
    }

    /**
     * `init(nbytes, payload)`: the framing word, the framed length and then the
     * payload bytes.  The C++ code does not check that they fit; the model
     * requires it.
     */
    method Init(nbytes: nat, payload: Bytes)
      requires Valid() && |payload| == nbytes && nbytes + 8 <= Capacity
      modifies this, data
      ensures Valid() && len == nbytes + 8
      ensures data[..4] == U32(FrameMarker) && data[4..8] == U32(nbytes + 8) && data[8..len] == payload
      ensures forall i :: len <= i < Capacity ==> data[i] == old(data[i])
    {
      var marker, framed := U32(FrameMarker), U32(nbytes + 8);
      forall i | 0 <= i < 4 {
        data[i] := marker[i];
      }
      forall i | 4 <= i < 8 {
        data[i] := framed[i - 4];
      }
      forall i | 8 <= i < 8 + nbytes {
        data[i] := payload[i - 8];
      }
      len := nbytes + 8;
    }

    /** `EBF_Data::write`. */
    method Write(f: FileState) returns (g: FileState, out: Outcome)
      requires Valid() && f.pos <= |f.bytes|
      ensures (g, out) == WriteBlob(f, Payload())
    {
      var (f1, ok1) := Fwrite(f, U32(len));
      if !ok1 {
        return f1, Throw(ShortWrite);
      }
      var (f2, ok2) := Fwrite(f1, data[..len]);
      g, out := f2, if ok2 then Pass else Throw(ShortWrite);
    }

    /** `EBF_Data::read`: on success the buffer holds the payload and nothing past it changes. */
    method Read(f: FileState) returns (g: FileState, out: Outcome)
      requires Valid()
      modifies this, data
      ensures Valid()
      ensures g == ReadBlob(f).0
      ensures out.Pass? <==> ReadBlob(f).1.Ok?
      ensures out.Throw? ==> out.error == ReadBlob(f).1.error
      ensures out.Pass? ==> Payload() == ReadBlob(f).1.value
      ensures out.Pass? ==> forall i :: len <= i < Capacity ==> data[i] == old(data[i])
    {
      var (f1, w) := Fread(f, 4);
      if w.None? {
        return f1, Throw(ShortRead);
      }
      var n := DecU32(w.value);
      if n > Capacity {
        return f1, Throw(BufferOverflow);
      }
      len := n;
      var (f2, p) := Fread(f1, n);
      g := f2;
      if p.None? {
        return g, Throw(ShortRead);
      }
      var bytes := p.value;
      forall i | 0 <= i < n {
        data[i] := bytes[i];
      }
      out := Pass;
    }
  }
}
