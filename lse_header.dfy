/**
 * LSEHeader: the run-level block at the start of an .evt file.  On disk it is
 * the marker word 0xFAF32000 followed by the header block: run id, the two
 * time bounds, the event count, the two GEM sequence bounds and four per-APID
 * tables of LSEHEADER_MAX_APIDS words each.
 */
module Header {
  import opened Base
  import opened Codec
  import opened Stdio

  const Magic: u32 := 0xFAF3_2000

  /** LSEHEADER_MAX_APIDS */
  const MaxApids: nat := 4

  /** Size of the header block that follows the marker word. */
  const BlockSize: nat := 100

  /** The value of an LSEHeader: its scalar members and the contents of its four tables. */
  datatype HeaderValue = HeaderValue(
    runid: u32, secsBeg: u32, secsEnd: u32,
    evtcnt: u64, seqBeg: u64, seqEnd: u64,
    srcApids: seq<u32>, srcSeqErr: seq<u32>, dfiApids: seq<u32>, dfiErr: seq<u32>)

  /** Every per-APID table has exactly MaxApids slots. */
  ghost predicate WellFormed(v: HeaderValue)
  {
    |v.srcApids| == MaxApids && |v.srcSeqErr| == MaxApids &&
    |v.dfiApids| == MaxApids && |v.dfiErr| == MaxApids
  }

  /** What the constructor produces: every member zero. */
  function Zero(): (v: HeaderValue)
    ensures WellFormed(v)
  {
    var none := seq(MaxApids, _ => 0);
    HeaderValue(0, 0, 0, 0, 0, 0, none, none, none, none)
  }

  function TableImage(t: seq<u32>): (r: Bytes)
    requires |t| == MaxApids
    ensures |r| == 16
  {
    U32(t[0]) + (U32(t[1]) + (U32(t[2]) + U32(t[3])))
  }

  function DecTable(b: Bytes): (t: seq<u32>)
    requires |b| == 16
    ensures |t| == MaxApids
  {
    [DecU32(b[..4]), DecU32(b[4..][..4]), DecU32(b[8..][..4]), DecU32(b[12..])]
  }

  /** The header block, field by field in declaration order. */
  function Block(v: HeaderValue): (r: Bytes)
    requires WellFormed(v)
    ensures |r| == BlockSize
  {
    U32(v.runid) + (U32(v.secsBeg) + (U32(v.secsEnd) + (U64(v.evtcnt) + (U64(v.seqBeg) + (U64(v.seqEnd) +
    (TableImage(v.srcApids) + (TableImage(v.srcSeqErr) + (TableImage(v.dfiApids) + TableImage(v.dfiErr)))))))))
  }

  function DecBlock(b: Bytes): (v: HeaderValue)
    requires |b| == BlockSize
    ensures WellFormed(v)
  {
    HeaderValue(
      DecU32(b[..4]), DecU32(b[4..8]), DecU32(b[8..12]),
      DecU64(b[12..20]), DecU64(b[20..28]), DecU64(b[28..36]),
      DecTable(b[36..52]), DecTable(b[52..68]), DecTable(b[68..84]), DecTable(b[84..]))
  }

  /** What `LSEHeader::write` emits: the marker, then the block. */
  function Image(v: HeaderValue): (r: Bytes)
    requires WellFormed(v)
    ensures |r| == 4 + BlockSize && r[..4] == U32(Magic)
  {
    U32(Magic) + Block(v)
  }

  lemma TableRoundTrip(t: seq<u32>)
    requires |t| == MaxApids
    ensures DecTable(TableImage(t)) == t
  {
    var b := TableImage(t);
    assert b[..4] == U32(t[0]);
    assert b[4..][..4] == U32(t[1]);
    assert b[8..][..4] == U32(t[2]);
    assert b[12..] == U32(t[3]);
    U32RoundTrip(t[0]);
    U32RoundTrip(t[1]);
    U32RoundTrip(t[2]);
    U32RoundTrip(t[3]);
  }

  /** Decoding the block of a header gives back the header, field for field. */
  lemma BlockRoundTrip(v: HeaderValue)
    requires WellFormed(v)
    ensures DecBlock(Block(v)) == v
  {
    var b := Block(v);
    assert b[..4] == U32(v.runid);
    assert b[4..8] == U32(v.secsBeg);
    assert b[8..12] == U32(v.secsEnd);
    assert b[12..20] == U64(v.evtcnt);
    assert b[20..28] == U64(v.seqBeg);
    assert b[28..36] == U64(v.seqEnd);
    assert b[36..52] == TableImage(v.srcApids);
    assert b[52..68] == TableImage(v.srcSeqErr);
    assert b[68..84] == TableImage(v.dfiApids);
    assert b[84..] == TableImage(v.dfiErr);
    U32RoundTrip(v.runid);
    U32RoundTrip(v.secsBeg);
    U32RoundTrip(v.secsEnd);
    U64RoundTrip(v.evtcnt);
    U64RoundTrip(v.seqBeg);
    U64RoundTrip(v.seqEnd);
    TableRoundTrip(v.srcApids);
    TableRoundTrip(v.srcSeqErr);
    TableRoundTrip(v.dfiApids);
    TableRoundTrip(v.dfiErr);
  }

  /**
   * `LSEHeader::read`: the marker word (a short read leaves it 0, which is not
   * the magic value), then the whole block in one fread.
   */
  function ReadHeader(f: FileState): (r: (FileState, Result<HeaderValue>))
    ensures r.0.bytes == f.bytes
  {
    var (f1, m) := Fread(f, 4);
    if m.None? || DecU32(m.value) != Magic then (f1, Fail(BadMagic))
    else
      var (f2, b) := Fread(f1, BlockSize);
      if b.None? then (f2, Fail(ShortRead)) else (f2, Ok(DecBlock(b.value)))
  }

  /** `read` rejects a file whose first word is not the magic value. */
  lemma ReadHeaderRejectsBadMagic(f: FileState)
    requires f.pos + 4 <= |f.bytes| && DecU32(f.bytes[f.pos..f.pos + 4]) != Magic
    ensures ReadHeader(f).1 == Fail(BadMagic)
  {
  }

  /** `read` fails when the magic word is followed by fewer than BlockSize bytes. */
  lemma ReadHeaderRejectsShortBlock(f: FileState)
    requires f.pos + 4 <= |f.bytes| < f.pos + 4 + BlockSize
    requires DecU32(f.bytes[f.pos..f.pos + 4]) == Magic
    ensures ReadHeader(f).1 == Fail(ShortRead)
  {
  }

  /** Round trip: `read` where `write` put a header returns that header and moves past it. */
  lemma ReadHeaderImage(f: FileState, v: HeaderValue)
    requires WellFormed(v) && At(f, Image(v))
    ensures ReadHeader(f) == (f.(pos := f.pos + 4 + BlockSize), Ok(v))
  {
    AtSplit(f, U32(Magic), Block(v));
    FreadAt(f, U32(Magic));
    U32RoundTrip(Magic);
    FreadAt(f.(pos := f.pos + 4), Block(v));
    BlockRoundTrip(v);
  }

  class LseHeader {
    var runid: u32
    var secsBeg: u32
    var secsEnd: u32
    var evtcnt: u64
    var seqBeg: u64
    var seqEnd: u64
    const srcApids: array<u32>
    const srcSeqErr: array<u32>
    const dfiApids: array<u32>
    const dfiErr: array<u32>

    ghost predicate Valid()
      reads this
    {
      srcApids.Length == MaxApids && srcSeqErr.Length == MaxApids &&
      dfiApids.Length == MaxApids && dfiErr.Length == MaxApids &&
      srcApids != srcSeqErr && srcApids != dfiApids && srcApids != dfiErr &&
      srcSeqErr != dfiApids && srcSeqErr != dfiErr && dfiApids != dfiErr
    }

    ghost function Repr(): set<object>
      reads this
    {
      {this, srcApids, srcSeqErr, dfiApids, dfiErr}
    }

    function Value(): (v: HeaderValue)
      reads this, srcApids, srcSeqErr, dfiApids, dfiErr
      requires Valid()
      ensures WellFormed(v)
    {
      HeaderValue(runid, secsBeg, secsEnd, evtcnt, seqBeg, seqEnd,
                  srcApids[..], srcSeqErr[..], dfiApids[..], dfiErr[..])
    }

    /** The constructor zeroes every member, the four tables included. */
    constructor ()
      ensures Valid() && fresh(Repr() - {this}) && Value() == Zero()
    {
      runid, secsBeg, secsEnd := 0, 0, 0;
      evtcnt, seqBeg, seqEnd := 0, 0, 0;
      srcApids := new u32[MaxApids](_ => 0);
      srcSeqErr := new u32[MaxApids](_ => 0);
      dfiApids := new u32[MaxApids](_ => 0);
      dfiErr := new u32[MaxApids](_ => 0);
      new;
      assert srcApids[..] == seq(MaxApids, _ => 0);
      assert srcSeqErr[..] == seq(MaxApids, _ => 0);
      assert dfiApids[..] == seq(MaxApids, _ => 0);
      assert dfiErr[..] == seq(MaxApids, _ => 0);
    }

    /** Overwrites this header from its table image, in place. */
    method Assign(v: HeaderValue)
      requires Valid() && WellFormed(v)
      modifies this, srcApids, srcSeqErr, dfiApids, dfiErr
      ensures Valid() && Value() == v
    {
      runid, secsBeg, secsEnd := v.runid, v.secsBeg, v.secsEnd;
      evtcnt, seqBeg, seqEnd := v.evtcnt, v.seqBeg, v.seqEnd;
      forall i | 0 <= i < MaxApids {
        srcApids[i] := v.srcApids[i];
      }
      forall i | 0 <= i < MaxApids {
        srcSeqErr[i] := v.srcSeqErr[i];
      }
      forall i | 0 <= i < MaxApids {
        dfiApids[i] := v.dfiApids[i];
      }
      forall i | 0 <= i < MaxApids {
        dfiErr[i] := v.dfiErr[i];
      }
      assert srcApids[..] == v.srcApids;
      assert srcSeqErr[..] == v.srcSeqErr;
      assert dfiApids[..] == v.dfiApids;
      assert dfiErr[..] == v.dfiErr;
    }

    /** `LSEHeader::read`: on success the header holds what the file says; on a bad marker it is untouched. */
    method Read(f: FileState) returns (g: FileState, out: Outcome)
      requires Valid()
      modifies this, srcApids, srcSeqErr, dfiApids, dfiErr
      ensures Valid() && g == ReadHeader(f).0
      ensures out.Pass? <==> ReadHeader(f).1.Ok?
      ensures out.Throw? ==> out.error == ReadHeader(f).1.error
      ensures out.Pass? ==> Value() == ReadHeader(f).1.value
      ensures out == Throw(BadMagic) ==> Value() == old(Value())
    {
      var (f1, m) := Fread(f, 4);
      if m.None? || DecU32(m.value) != Magic {
        return f1, Throw(BadMagic);
      }
      var r2 := Fread(f1, BlockSize);
      var b := r2.1;
      g := r2.0;
      if b.None? {
        return g, Throw(ShortRead);
      }
      Assign(DecBlock(b.value));
      out := Pass;
    }

    /** `LSEHeader::write`: the marker, then the block; neither fwrite is checked. */
    method Write(f: FileState) returns (g: FileState)
      requires Valid() && f.pos <= |f.bytes|
      ensures g == Fwrite(Fwrite(f, U32(Magic)).0, Block(Value())).0
      ensures g.pos == f.pos + 4 + BlockSize && At(f.(bytes := g.bytes), Image(Value()))
    {
      var w1 := Fwrite(f, U32(Magic));
      var w2 := Fwrite(w1.0, Block(Value()));
      g := w2.0;
      WriteAtCursor(f, Value());
    }
  }

  /** The two unchecked fwrites of `write` lay the header image down at the cursor. */
  lemma WriteAtCursor(f: FileState, v: HeaderValue)
    requires f.pos <= |f.bytes| && WellFormed(v)
    ensures var g := Fwrite(Fwrite(f, U32(Magic)).0, Block(v)).0;
      g.pos == f.pos + 4 + BlockSize && At(f.(bytes := g.bytes), Image(v))
  {
    FwriteTwice(f, U32(Magic), Block(v));
  }
}
