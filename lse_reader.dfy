/**
 * LSEReader: opens an .evt file, checks and reads its header, and then reads
 * one record at a time.  A record is the context image, the payload blob and
 * the tagged info block; the merge tool's records add a tagged keys block.
 * The caller's out-parameters keep their values from one read to the next,
 * and a read fills only the one whose tag the record carries.
 */
module Reader {
  import opened Base
  import opened Codec
  import opened Stdio
  import Header
  import Context
  import Ebf
  import Info
  import Keys
  import Record

  /** The header statistics the reader keeps: run id, event count, first and last GEM sequence. */
  datatype Stats = Stats(runid: u32, evtcnt: u64, begGEM: u64, endGEM: u64)

  /** Where the first record starts in a file laid down by LSEWriter: after the marker and the header block. */
  const FirstRecord: nat := 4 + Header.BlockSize

  // ---------------------------------------------------------------------------
  // The header

  /** An unchecked `fread` of an `unsigned`: a short read leaves the variable as it was. */
  function ReadWordOr(f: FileState, prior: u32): (r: (FileState, u32))
    ensures r.0.bytes == f.bytes
    ensures f.pos + 4 <= |f.bytes| ==> r.0.pos == f.pos + 4 && r.1 == DecU32(f.bytes[f.pos..f.pos + 4])
    ensures |f.bytes| < f.pos + 4 ==> r.1 == prior && r.0.eof
  {
    var x := Fread(f, 4);
    (x.0, if x.1.Some? then DecU32(x.1.value) else prior)
  }

  /** An unchecked `fread` of an `unsigned long long`. */
  function ReadLongOr(f: FileState, prior: u64): (r: (FileState, u64))
    ensures r.0.bytes == f.bytes
    ensures f.pos + 8 <= |f.bytes| ==> r.0.pos == f.pos + 8 && r.1 == DecU64(f.bytes[f.pos..f.pos + 8])
    ensures |f.bytes| < f.pos + 8 ==> r.1 == prior && r.0.eof
  {
    var x := Fread(f, 8);
    (x.0, if x.1.Some? then DecU64(x.1.value) else prior)
  }

  /**
   * `readHeader` as written: from offset 0, the marker word (a short read
   * leaves it 0), then run id, event count and the two GEM sequence bounds,
   * none of them checked.
   */
  function ReadStatsAsWritten(f: FileState): (r: (FileState, Result<Stats>))
    ensures r.0.bytes == f.bytes
    ensures r.1.Fail? <==> |f.bytes| < 4 || DecU32(f.bytes[..4]) != Header.Magic
    ensures r.1.Fail? ==> r.1.error == BadMagic
  {
    var m := Fread(SeekSet(f, 0), 4);
    if m.1.None? || DecU32(m.1.value) != Header.Magic then (m.0, Fail(BadMagic))
    else
      var a := ReadWordOr(m.0, 0);
      var b := ReadLongOr(a.0, 0);
      var c := ReadLongOr(b.0, 0);
      var d := ReadLongOr(c.0, 0);
      (d.0, Ok(Stats(a.1, b.1, c.1, d.1)))
  }

  /** The unchecked reads of `readHeader` over whatever lies at the start of the file. */
  lemma ReadStatsSteps(f: FileState, a: Bytes, b: Bytes, c: Bytes, d: Bytes, rest: Bytes)
    requires |a| == 4 && |b| == 8 && |c| == 8 && |d| == 8
    requires At(SeekSet(f, 0), U32(Header.Magic) + (a + (b + (c + (d + rest)))))
    ensures ReadStatsAsWritten(f).1 == Ok(Stats(DecU32(a), DecU64(b), DecU64(c), DecU64(d)))
    ensures ReadStatsAsWritten(f).0.pos == 32
  {
    var f0 := SeekSet(f, 0);
    AtSplit(f0, U32(Header.Magic), a + (b + (c + (d + rest))));
    AtSplit(f0.(pos := 4), a, b + (c + (d + rest)));
    AtSplit(f0.(pos := 8), b, c + (d + rest));
    AtSplit(f0.(pos := 16), c, d + rest);
    AtSplit(f0.(pos := 24), d, rest);
    FreadAt(f0, U32(Header.Magic));
    U32RoundTrip(Header.Magic);
    var m := Fread(f0, 4);
    assert m.0 == f0.(pos := 4) && m.1 == Some(U32(Header.Magic));
  }

  /**
   * On a file that starts with the header LSEWriter writes, the as-written
   * read takes the two time bounds for the event count, the event count for
   * the first GEM sequence and the first for the last, and leaves the cursor
   * 72 bytes short of the first record.
   */
  lemma ReadStatsAsWrittenOnHeader(f: FileState, v: Header.HeaderValue)
    requires Header.WellFormed(v) && At(SeekSet(f, 0), Header.Image(v))
    ensures ReadStatsAsWritten(f).1 == Ok(Stats(v.runid, v.secsBeg + 0x1_0000_0000 * v.secsEnd, v.evtcnt, v.seqBeg))
    ensures ReadStatsAsWritten(f).0.pos == 32 && 32 < FirstRecord
  {
    var tables := Header.TableImage(v.srcApids) + (Header.TableImage(v.srcSeqErr) +
                  (Header.TableImage(v.dfiApids) + Header.TableImage(v.dfiErr)));
    var secs := U32(v.secsBeg) + U32(v.secsEnd);
    var rest := U64(v.seqEnd) + tables;
    assert Header.Image(v) == U32(Header.Magic) + (U32(v.runid) + (secs + (U64(v.evtcnt) + (U64(v.seqBeg) + rest))));
    ReadStatsSteps(f, U32(v.runid), secs, U64(v.evtcnt), U64(v.seqBeg), rest);
    DecU64Halves(U32(v.secsBeg), U32(v.secsEnd));
    U32RoundTrip(v.runid);
    U32RoundTrip(v.secsBeg);
    U32RoundTrip(v.secsEnd);
    U64RoundTrip(v.evtcnt);
    U64RoundTrip(v.seqBeg);
  }

  /** A header whose time bounds are set shows the mix-up: the event count comes back wrong. */
  lemma ReadStatsAsWrittenMisreads(f: FileState)
    requires At(SeekSet(f, 0), Header.Image(Header.Zero().(secsBeg := 1)))
    ensures ReadStatsAsWritten(f).1.Ok?
    ensures ReadStatsAsWritten(f).1.value.evtcnt == 1 != Header.Zero().(secsBeg := 1).evtcnt
  {
    ReadStatsAsWrittenOnHeader(f, Header.Zero().(secsBeg := 1));
  }

  /**
   * The header read as evidently intended: `LSEHeader::read` from offset 0,
   * which checks the marker and takes the whole header block, so that the
   * statistics come from their own fields and the cursor ends at the first record.
   */
  function ReadStats(f: FileState): (r: (FileState, Result<Stats>))
    ensures r.0.bytes == f.bytes
  {
    var h := Header.ReadHeader(SeekSet(f, 0));
    if h.1.Fail? then (h.0, Fail(h.1.error))
    else (h.0, Ok(Stats(h.1.value.runid, h.1.value.evtcnt, h.1.value.seqBeg, h.1.value.seqEnd)))
  }

  /** The corrected read returns the statistics LSEWriter's header holds and leaves the cursor at the first record. */
  lemma ReadStatsOnHeader(f: FileState, v: Header.HeaderValue)
    requires Header.WellFormed(v) && At(SeekSet(f, 0), Header.Image(v))
    ensures ReadStats(f).1 == Ok(Stats(v.runid, v.evtcnt, v.seqBeg, v.seqEnd))
    ensures ReadStats(f).0.pos == FirstRecord && !ReadStats(f).0.eof
  {
    Header.ReadHeaderImage(SeekSet(f, 0), v);
  }

  /** Both header reads refuse a file whose first word is not the marker. */
  lemma ReadStatsRejectsBadMagic(f: FileState)
    requires 4 <= |f.bytes| && DecU32(f.bytes[..4]) != Header.Magic
    ensures ReadStats(f).1 == Fail(BadMagic) && ReadStatsAsWritten(f).1 == Fail(BadMagic)
  {
    Header.ReadHeaderRejectsBadMagic(SeekSet(f, 0));
  }

  /**
   * What decides whether a file's header reads: the marker in the first
   * word, then a whole header block; and the error when it does not.
   */
  function HeaderError(b: Bytes): (r: Option<Error>)
    ensures r.Some? ==> r.value == BadMagic || r.value == ShortRead
    ensures r.None? ==> |b| >= 4 + Header.BlockSize && DecU32(b[..4]) == Header.Magic
  {
    if |b| < 4 || DecU32(b[..4]) != Header.Magic then Some(BadMagic)
    else if |b| < 4 + Header.BlockSize then Some(ShortRead)
    else None
  }

  /** The header read of a newly opened file fails exactly as `HeaderError` says, with that error. */
  lemma HeaderErrorIsRead(b: Bytes)
    ensures ReadStats(Opened(b)).1.Ok? <==> HeaderError(b).None?
    ensures HeaderError(b).Some? ==> ReadStats(Opened(b)).1 == Fail(HeaderError(b).value)
  {
    assert SeekSet(Opened(b), 0) == Opened(b);
  }

  // ---------------------------------------------------------------------------
  // Records

  /** The context and payload of one record. */
  datatype Common = Common(ctx: Context.LseContext, payload: Bytes)

  /**
   * `read(ctx, ebf)`: nothing at end of file; a context read that comes up
   * short is the end of the file when the end-of-file indicator is then set,
   * an error otherwise; then the payload blob, whose failures are errors.
   */
  function ReadCommon(f: FileState): (r: (FileState, Result<Option<Common>>))
    ensures r.0.bytes == f.bytes
    ensures f.eof ==> r.0 == f && r.1 == Ok(None)
    ensures !f.eof && |f.bytes| < f.pos + Context.ContextSize ==> r.1 == Ok(None) && r.0.eof
    ensures r.1.Ok? && r.1.value.Some? ==> 0 < |r.1.value.value.payload| <= Ebf.Capacity
  {
    if f.eof then (f, Ok(None))
    else
      var c := Fread(f, Context.ContextSize);
      if c.1.None? then (c.0, if c.0.eof then Ok(None) else Fail(ShortRead))
      else
        var p := Ebf.ReadBlob(c.0);
        if p.1.Fail? then (p.0, Fail(p.1.error))
        else (p.0, Ok(Some(Common(Context.Decode(c.1.value), p.1.value))))
  }

  /** What `read(itype, buf, len)` hands back: the tag and the body. */
  datatype Block = Block(tag: int32, body: Bytes)

  /**
   * `read(itype, buf, len)`: the tag, the 64-bit length, then exactly that
   * many bytes; every short read is an error.  The 128 KiB buffer is not
   * checked against the length in the C++ code; the model reports a longer
   * body as an overflow instead of overrunning the buffer.
   */
  function ReadBlock(f: FileState): (r: (FileState, Result<Block>))
    ensures r.0.bytes == f.bytes
    ensures r.1.Ok? ==> 0 < |r.1.value.body| <= Ebf.Capacity && r.0.pos == f.pos + 12 + |r.1.value.body|
    ensures r.1.Fail? ==> r.1.error == ShortRead || r.1.error == BufferOverflow
    ensures |f.bytes| < f.pos + 12 ==> r.1 == Fail(ShortRead)
  {
    var t := Fread(f, 4);
    if t.1.None? then (t.0, Fail(ShortRead))
    else
      var l := Fread(t.0, 8);
      if l.1.None? then (l.0, Fail(ShortRead))
      else
        var n := DecU64(l.1.value);
        if n > Ebf.Capacity then (l.0, Fail(BufferOverflow))
        else
          var b := Fread(l.0, n);
          if b.1.None? then (b.0, Fail(ShortRead)) else (b.0, Ok(Block(DecI32(t.1.value), b.1.value)))
  }

  /** The caller's out-parameters of the typed reads. */
  datatype Outs = Outs(
    ctx: Context.LseContext, itype: int32,
    pinfo: Info.LpaInfo, ainfo: Info.AcdInfo, cinfo: Info.CalInfo, tinfo: Info.TkrInfo,
    ktype: int32, pakeys: Keys.LpaKeys, cikeys: Keys.LciKeys)

  /**
   * The `switch` of the typed read: `infotype` always takes the tag, and the
   * one out-parameter the tag names takes the decoded body.  A body whose
   * length does not fit that variant is reported instead of reinterpreted.
   */
  function AssignInfo(o: Outs, b: Block): (r: Result<Outs>)
    ensures r.Fail? ==> r.error == SizeMismatch
    ensures r.Ok? ==> r.value.itype == b.tag && r.value.ctx == o.ctx
    ensures r.Ok? ==> r.value.ktype == o.ktype && r.value.pakeys == o.pakeys && r.value.cikeys == o.cikeys
    ensures r.Ok? && b.tag != Info.Lpa ==> r.value.pinfo == o.pinfo
    ensures r.Ok? && b.tag != Info.LciAcd ==> r.value.ainfo == o.ainfo
    ensures r.Ok? && b.tag != Info.LciCal ==> r.value.cinfo == o.cinfo
    ensures r.Ok? && b.tag != Info.LciTkr ==> r.value.tinfo == o.tinfo
    ensures !(Info.Lpa <= b.tag < Info.NumLSEInfoTypes) ==> r == Ok(o.(itype := b.tag))
  {
    var o1 := o.(itype := b.tag);
    if b.tag == Info.Lpa then
      var x := Info.DecLpaBody(b.body);
      if x.None? then Fail(SizeMismatch) else Ok(o1.(pinfo := x.value))
    else if b.tag == Info.LciAcd then
      if |b.body| == Info.AcdSize then Ok(o1.(ainfo := Info.DecAcd(b.body))) else Fail(SizeMismatch)
    else if b.tag == Info.LciCal then
      if |b.body| == Info.CalSize then Ok(o1.(cinfo := Info.DecCal(b.body))) else Fail(SizeMismatch)
    else if b.tag == Info.LciTkr then
      if |b.body| == Info.TkrSize then Ok(o1.(tinfo := Info.DecTkr(b.body))) else Fail(SizeMismatch)
    else Ok(o1)
  }

  /** The same dispatch for the keys block: `ktype` takes the tag, the named keys object the body. */
  function AssignKeys(o: Outs, b: Block): (r: Result<Outs>)
    ensures r.Fail? ==> r.error == SizeMismatch
    ensures r.Ok? ==> r.value.ktype == b.tag
    ensures r.Ok? ==> r.value.(ktype := o.ktype, pakeys := o.pakeys, cikeys := o.cikeys) == o
    ensures r.Ok? && b.tag != Keys.KeysLpa ==> r.value.pakeys == o.pakeys
    ensures r.Ok? && b.tag != Keys.KeysLci ==> r.value.cikeys == o.cikeys
    ensures !(Keys.KeysLpa <= b.tag < Keys.NumLSEKeysTypes) ==> r == Ok(o.(ktype := b.tag))
  {
    var o1 := o.(ktype := b.tag);
    if b.tag == Keys.KeysLpa then
      var k := Keys.DecLpaKeys(b.body);
      if k.None? then Fail(SizeMismatch) else Ok(o1.(pakeys := k.value))
    else if b.tag == Keys.KeysLci then
      if |b.body| == Keys.LciKeysSize then Ok(o1.(cikeys := Keys.DecLciKeys(b.body))) else Fail(SizeMismatch)
    else Ok(o1)
  }

  /** The LPA object as it reads back: its handler list cut to the count word. */
  function Stored(x: Info.LpaInfo): (y: Info.LpaInfo)
    ensures y.fixed == x.fixed && |y.handlers| == Info.Count(x)
    ensures |x.handlers| < 0x1_0000_0000 ==> y == x
  {
    x.(handlers := x.handlers[..Info.Count(x)])
  }

  /** The out-parameters once a record written with `v` has been read into `o`. */
  function WithInfo(o: Outs, v: Record.InfoValue): Outs
  {
    match v
    case LpaValue(x) => o.(itype := Info.Lpa, pinfo := Stored(x))
    case AcdValue(x) => o.(itype := Info.LciAcd, ainfo := x)
    case CalValue(x) => o.(itype := Info.LciCal, cinfo := x)
    case TkrValue(x) => o.(itype := Info.LciTkr, tinfo := x)
  }

  function WithKeys(o: Outs, k: Record.KeysValue): Outs
  {
    match k
    case LpaKeysValue(x) => o.(ktype := Keys.KeysLpa, pakeys := x.(cdmKeys := x.cdmKeys[..Keys.KeyCount(x)]))
    case LciKeysValue(x) => o.(ktype := Keys.KeysLci, cikeys := x)
  }

  /** The dispatch of the reader undoes the writer's choice of tag and body. */
  lemma AssignInfoBody(o: Outs, v: Record.InfoValue)
    ensures AssignInfo(o, Block(Record.InfoTag(v), Record.InfoBody(v))) == Ok(WithInfo(o, v))
  {
    match v
    case LpaValue(x) => Info.LpaBodyRoundTrip(x);
    case AcdValue(x) => Info.AcdRoundTrip(x);
    case CalValue(x) => Info.CalRoundTrip(x);
    case TkrValue(x) => Info.TkrRoundTrip(x);
  }

  lemma AssignKeysBody(o: Outs, k: Record.KeysValue)
    ensures AssignKeys(o, Block(Record.KeysTag(k), Record.KeysBody(k))) == Ok(WithKeys(o, k))
  {
    match k
    case LpaKeysValue(x) => Keys.LpaKeysRoundTrip(x);
    case LciKeysValue(x) => Keys.LciKeysRoundTrip(x);
  }

  /** What a successful typed read hands back: the out-parameters and the payload. */
  datatype Got = Got(outs: Outs, payload: Bytes)

  /** The typed `read`: context and payload, then the info block, dispatched on its tag. */
  function ReadTyped(f: FileState, o: Outs): (r: (FileState, Result<Option<Got>>))
    ensures r.0.bytes == f.bytes
    ensures ReadCommon(f).1 == Ok(None) ==> r.1 == Ok(None)
    ensures r.1.Ok? && r.1.value.Some? ==> r.1.value.value.outs.ktype == o.ktype
    ensures r.1.Ok? && r.1.value.Some? ==> r.1.value.value.outs.pakeys == o.pakeys && r.1.value.value.outs.cikeys == o.cikeys
    ensures r.1.Ok? && r.1.value.Some? ==> 0 < |r.1.value.value.payload| <= Ebf.Capacity
  {
    var c := ReadCommon(f);
    if c.1.Fail? then (c.0, Fail(c.1.error))
    else if c.1.value.None? then (c.0, Ok(None))
    else
      var b := ReadBlock(c.0);
      if b.1.Fail? then (b.0, Fail(b.1.error))
      else
        var a := AssignInfo(o.(ctx := c.1.value.value.ctx), b.1.value);
        if a.Fail? then (b.0, Fail(a.error)) else (b.0, Ok(Some(Got(a.value, c.1.value.value.payload))))
  }

  /** The merge tool's ten-argument `read`: the typed read, then the keys block. */
  function ReadKeyed(f: FileState, o: Outs): (r: (FileState, Result<Option<Got>>))
    ensures r.0.bytes == f.bytes
    ensures ReadCommon(f).1 == Ok(None) ==> r.1 == Ok(None)
    ensures r.1.Ok? && r.1.value.Some? ==> 0 < |r.1.value.value.payload| <= Ebf.Capacity
  {
    var t := ReadTyped(f, o);
    if t.1.Fail? || t.1.value.None? then t
    else
      var b := ReadBlock(t.0);
      if b.1.Fail? then (b.0, Fail(b.1.error))
      else
        var a := AssignKeys(t.1.value.value.outs, b.1.value);
        if a.Fail? then (b.0, Fail(a.error)) else (b.0, Ok(Some(Got(a.value, t.1.value.value.payload))))
  }

  // ---------------------------------------------------------------------------
  // Reading back what LSEWriter wrote

  /** A context image and a payload blob read back where they lie, whatever the context bytes. */
  lemma ReadCommonAt(f: FileState, cimg: Bytes, p: Bytes)
    requires |cimg| == Context.ContextSize && 0 < |p| <= Ebf.Capacity
    requires !f.eof && At(f, cimg + Ebf.Image(p))
    ensures ReadCommon(f).0 == f.(pos := f.pos + Context.ContextSize + 4 + |p|)
    ensures ReadCommon(f).1 == Ok(Some(Common(Context.Decode(cimg), p)))
  {
    AtSplit(f, cimg, Ebf.Image(p));
    FreadAt(f, cimg);
    Ebf.ReadBlobImage(f.(pos := f.pos + Context.ContextSize), p);
  }

  /** A tagged block reads back as its tag and body. */
  lemma ReadBlockImage(f: FileState, tag: int32, body: Bytes)
    requires 0 < |body| <= Ebf.Capacity && At(f, Record.BlockImage(tag, body))
    ensures ReadBlock(f).0 == f.(pos := f.pos + 12 + |body|)
    ensures ReadBlock(f).1 == Ok(Block(tag, body))
  {
    AtSplit(f, I32(tag), U64(|body|) + body);
    var f4 := f.(pos := f.pos + 4);
    AtSplit(f4, U64(|body|), body);
    FreadAt(f, I32(tag));
    FreadAt(f4, U64(|body|));
    FreadAt(f4.(pos := f4.pos + 8), body);
    I32RoundTrip(tag);
    U64RoundTrip(|body|);
  }

  /** The typed read once its context, payload and info block have each been read. */
  lemma ReadTypedAt(f: FileState, o: Outs, c: Common, f1: FileState, b: Block, f2: FileState)
    requires ReadCommon(f).0 == f1 && ReadCommon(f).1 == Ok(Some(c))
    requires ReadBlock(f1).0 == f2 && ReadBlock(f1).1 == Ok(b)
    requires AssignInfo(o.(ctx := c.ctx), b).Ok?
    ensures ReadTyped(f, o).0 == f2
    ensures ReadTyped(f, o).1 == Ok(Some(Got(AssignInfo(o.(ctx := c.ctx), b).value, c.payload)))
  {
  }

  /** The context and payload of a record, whatever follows them, read back where they lie. */
  lemma ReadCommonBefore(f: FileState, img: Bytes, cimg: Bytes, ctx: Context.LseContext, p: Bytes, rest: Bytes)
    requires |cimg| == Context.ContextSize && Context.Decode(cimg) == ctx && 0 < |p| <= Ebf.Capacity
    requires img == (cimg + Ebf.Image(p)) + rest && !f.eof && At(f, img)
    ensures ReadCommon(f).0 == f.(pos := f.pos + Context.ContextSize + 4 + |p|)
    ensures ReadCommon(f).1 == Ok(Some(Common(ctx, p)))
  {
    AtSplit(f, cimg + Ebf.Image(p), rest);
    ReadCommonAt(f, cimg, p);
  }

  /** A tagged block read back past the context and payload in front of it. */
  lemma ReadBlockAfter(f: FileState, img: Bytes, common: Bytes, tag: int32, body: Bytes)
    requires 0 < |body| <= Ebf.Capacity && img == common + Record.BlockImage(tag, body) && At(f, img)
    ensures ReadBlock(f.(pos := f.pos + |common|)).0 == f.(pos := f.pos + |img|)
    ensures ReadBlock(f.(pos := f.pos + |common|)).1 == Ok(Block(tag, body))
  {
    AtSplit(f, common, Record.BlockImage(tag, body));
    ReadBlockImage(f.(pos := f.pos + |common|), tag, body);
  }

  /** A record of the typed `write` reads back as its context, payload and info object. */
  lemma ReadTypedImage(f: FileState, o: Outs, ctx: Context.LseContext, p: Bytes, v: Record.InfoValue)
    requires 0 < |p| <= Ebf.Capacity && |Record.InfoBody(v)| <= Ebf.Capacity
    requires !f.eof && At(f, Record.RecordImage(ctx, p, v))
    ensures ReadTyped(f, o).0 == f.(pos := f.pos + |Record.RecordImage(ctx, p, v)|)
    ensures ReadTyped(f, o).1 == Ok(Some(Got(WithInfo(o.(ctx := ctx), v), p)))
  {
    var cimg, tag, body := Context.Image(ctx), Record.InfoTag(v), Record.InfoBody(v);
    var img := Record.RecordImage(ctx, p, v);
    var common := cimg + Ebf.Image(p);
    var f1 := f.(pos := f.pos + |common|);
    Record.RecordImageParts(ctx, p, v);
    Context.RoundTrip(ctx);
    ReadCommonBefore(f, img, cimg, ctx, p, Record.BlockImage(tag, body));
    ReadBlockAfter(f, img, common, tag, body);
    AssignInfoBody(o.(ctx := ctx), v);
    ReadTypedAt(f, o, Common(ctx, p), f1, Block(tag, body), f.(pos := f.pos + |img|));
  }

  /** The keyed read of a record whose typed part reads back, followed by a keys block. */
  lemma ReadKeyedAt(f: FileState, o: Outs, g: Got, f1: FileState, tag: int32, body: Bytes)
    requires ReadTyped(f, o).0 == f1 && ReadTyped(f, o).1 == Ok(Some(g))
    requires 0 < |body| <= Ebf.Capacity && At(f1, Record.BlockImage(tag, body))
    requires AssignKeys(g.outs, Block(tag, body)).Ok?
    ensures ReadKeyed(f, o).0 == f1.(pos := f1.pos + 12 + |body|)
    ensures ReadKeyed(f, o).1 == Ok(Some(Got(AssignKeys(g.outs, Block(tag, body)).value, g.payload)))
  {
    ReadBlockImage(f1, tag, body);
  }

  /** A record of the four-argument `write` reads back with its keys as well. */
  lemma ReadKeyedImage(f: FileState, o: Outs, ctx: Context.LseContext, p: Bytes, v: Record.InfoValue, k: Record.KeysValue)
    requires 0 < |p| <= Ebf.Capacity && Record.Fits(v, k)
    requires !f.eof && At(f, Record.KeyedImage(ctx, p, v, k))
    ensures ReadKeyed(f, o).0 == f.(pos := f.pos + |Record.KeyedImage(ctx, p, v, k)|)
    ensures ReadKeyed(f, o).1 == Ok(Some(Got(WithKeys(WithInfo(o.(ctx := ctx), v), k), p)))
  {
    var rec := Record.RecordImage(ctx, p, v);
    var tag, body := Record.KeysTag(k), Record.KeysBody(k);
    AtSplit(f, rec, Record.BlockImage(tag, body));
    ReadTypedImage(f, o, ctx, p, v);
    var o1 := WithInfo(o.(ctx := ctx), v);
    AssignKeysBody(o1, k);
    ReadKeyedAt(f, o, Got(o1, p), f.(pos := f.pos + |rec|), tag, body);
  }

  /** A typed read that fails or finds no record ends the keyed read as well. */
  lemma ReadKeyedStops(f: FileState, o: Outs)
    requires ReadTyped(f, o).1.Fail? || ReadTyped(f, o).1 == Ok(None)
    ensures ReadKeyed(f, o).0 == ReadTyped(f, o).0 && ReadKeyed(f, o).1 == ReadTyped(f, o).1
  {
  }

  /** After a typed read that found a record, the keyed read goes on with the keys block. */
  lemma ReadKeyedGoesOn(f: FileState, o: Outs, g: Got, f1: FileState)
    requires ReadTyped(f, o).0 == f1 && ReadTyped(f, o).1 == Ok(Some(g))
    ensures ReadKeyed(f, o).0 == ReadBlock(f1).0
    ensures ReadBlock(f1).1.Fail? ==> ReadKeyed(f, o).1 == Fail(ReadBlock(f1).1.error)
    ensures ReadBlock(f1).1.Ok? && AssignKeys(g.outs, ReadBlock(f1).1.value).Fail? ==>
              ReadKeyed(f, o).1 == Fail(SizeMismatch)
    ensures ReadBlock(f1).1.Ok? && AssignKeys(g.outs, ReadBlock(f1).1.value).Ok? ==>
              ReadKeyed(f, o).1 == Ok(Some(Got(AssignKeys(g.outs, ReadBlock(f1).1.value).value, g.payload)))
  {
  }

  /** Past the last record a read reports no record, and leaves the out-parameters alone. */
  lemma ReadAtEnd(f: FileState, o: Outs)
    requires f.eof || f.pos == |f.bytes|
    ensures ReadTyped(f, o).1 == Ok(None) && ReadKeyed(f, o).1 == Ok(None)
  {
  }

  /** What a read method returns: an error, `false` for no further record, `true` for a record. */
  function Status(r: Result<Option<Got>>): (b: Result<bool>)
    ensures b.Ok? <==> r.Ok?
    ensures b == Ok(false) <==> r == Ok(None)
  {
    if r.Fail? then Fail(r.error) else Ok(r.value.Some?)
  }

  /** The out-parameters after a read: the record's when there was one, the caller's otherwise. */
  function OutsOf(r: Result<Option<Got>>, o: Outs): Outs
  {
    if r.Ok? && r.value.Some? then r.value.value.outs else o
  }

  // ---------------------------------------------------------------------------
  // The reader object

  class LseReader {
    const name: string
    var file: FileState
    var isOpen: bool
    var stats: Stats

    /** The C++ constructor's first half: the file opened for reading, statistics zero. */
    constructor (name: string, contents: Bytes)
      ensures this.name == name && file == Opened(contents) && isOpen && stats == Stats(0, 0, 0, 0)
    {
      this.name := name;
      file := Opened(contents);
      isOpen := true;
      stats := Stats(0, 0, 0, 0);
    }

    /** The header, read through an `LSEHeader` from offset 0 (the corrected `readHeader`). */
    method ReadHeader() returns (out: Outcome)
      modifies this
      ensures file == ReadStats(old(file)).0 && isOpen == old(isOpen)
      ensures out.Pass? <==> ReadStats(old(file)).1.Ok?
      ensures out.Pass? ==> stats == ReadStats(old(file)).1.value
      ensures out.Throw? ==> out.error == ReadStats(old(file)).1.error
    {
      var h := new Header.LseHeader();
      var g;
      g, out := h.Read(SeekSet(file, 0));
      file := g;
      if out.Pass? {
        stats := Stats(h.runid, h.evtcnt, h.seqBeg, h.seqEnd);
      }
    }

    /** The constructor: a missing file or a bad header makes construction fail. */
    static method Open(fs: map<string, Bytes>, name: string) returns (r: Result<LseReader>)
      ensures name !in fs ==> r == Fail(OpenError)
      ensures name in fs ==> (r.Ok? <==> ReadStats(Opened(fs[name])).1.Ok?)
      ensures name in fs && r.Fail? ==> r.error == ReadStats(Opened(fs[name])).1.error
      ensures r.Ok? ==> fresh(r.value) && r.value.isOpen && r.value.name == name
      ensures r.Ok? ==> r.value.file == ReadStats(Opened(fs[name])).0 && r.value.stats == ReadStats(Opened(fs[name])).1.value
    {
      if name !in fs {
        return Fail(OpenError);
      }
      var rd := new LseReader(name, fs[name]);
      var out := rd.ReadHeader();
      if out.Throw? {
        return Fail(out.error);
      }
      r := Ok(rd);
    }

    /** `close`: releases the file once; a second call does nothing. */
    method Close()
      modifies this
      ensures !isOpen && file == old(file) && stats == old(stats)
    {
      if isOpen {
        isOpen := false;
      }
    }

    /** `seek(ofst)`, as the merge tool uses it: the cursor moves and the end-of-file indicator clears. */
    method Seek(ofst: nat)
      requires isOpen
      modifies this
      ensures isOpen && stats == old(stats) && file == SeekSet(old(file), ofst)
    {
      file := SeekSet(file, ofst);
    }

    /** `read(itype, buf, len)`: one tagged block from the cursor. */
    method ReadRaw() returns (r: Result<Block>)
      requires isOpen
      modifies this
      ensures isOpen && stats == old(stats)
      ensures file == ReadBlock(old(file)).0 && r == ReadBlock(old(file)).1
    {
      var t := Fread(file, 4);
      file := t.0;
      if t.1.None? {
        return Fail(ShortRead);
      }
      var l := Fread(file, 8);
      file := l.0;
      if l.1.None? {
        return Fail(ShortRead);
      }
      var n := DecU64(l.1.value);
      if n > Ebf.Capacity {
        return Fail(BufferOverflow);
      }
      var b := Fread(file, n);
      file := b.0;
      if b.1.None? {
        return Fail(ShortRead);
      }
      r := Ok(Block(DecI32(t.1.value), b.1.value));
    }

    /**
     * `read(ctx, ebf)`: `Ok(None)` when there is no further record, else the
     * record's context, with its payload in `ebf`; exactly `ReadCommon` on
     * the reader's file.
     */
    method ReadCommonInto(ebf: Ebf.EbfData) returns (r: Result<Option<Context.LseContext>>)
      requires isOpen && ebf.Valid()
      modifies this, ebf, ebf.data
      ensures isOpen && stats == old(stats) && ebf.Valid()
      ensures file == ReadCommon(old(file)).0
      ensures r.Fail? <==> ReadCommon(old(file)).1.Fail?
      ensures r.Fail? ==> r.error == ReadCommon(old(file)).1.error
      ensures r.Ok? ==> (r.value.None? <==> ReadCommon(old(file)).1.value.None?)
      ensures r.Ok? && r.value.Some? ==> ReadCommon(old(file)).1.value.value == Common(r.value.value, ebf.Payload())
    {
      ghost var f0 := file;
      if file.eof {
        return Ok(None);
      }
      var c := Fread(file, Context.ContextSize);
      file := c.0;
      if c.1.None? {
        if file.eof {
          assert ReadCommon(f0).1 == Ok(None);
          return Ok(None);
        }
        return Fail(ShortRead);
      }
      var g, out := ebf.Read(file);
      file := g;
      if out.Throw? {
        assert ReadCommon(f0).1 == Fail(out.error);
        return Fail(out.error);
      }
      r := Ok(Some(Context.Decode(c.1.value)));
      assert ReadCommon(f0).1 == Ok(Some(Common(r.value.value, ebf.Payload())));
    }

    /**
     * The typed `read`: `Ok(false)` when there is no further record, the
     * out-parameters untouched; `Ok(true)` with the record's context and
     * info in the out-parameters and its payload in `ebf`.
     */
    method Read(ebf: Ebf.EbfData, o: Outs) returns (res: Result<bool>, o2: Outs)
      requires isOpen && ebf.Valid()
      modifies this, ebf, ebf.data
      ensures isOpen && stats == old(stats) && ebf.Valid()
      ensures file == ReadTyped(old(file), o).0
      ensures res == Status(ReadTyped(old(file), o).1) && o2 == OutsOf(ReadTyped(old(file), o).1, o)
      ensures res == Ok(true) ==> ebf.Payload() == ReadTyped(old(file), o).1.value.value.payload
    {
      o2 := o;
      var c := ReadCommonInto(ebf);
      if c.Fail? {
        return Fail(c.error), o;
      }
      if c.value.None? {
        return Ok(false), o;
      }
      var b := ReadRaw();
      if b.Fail? {
        return Fail(b.error), o;
      }
      var a := AssignInfo(o.(ctx := c.value.value), b.value);
      if a.Fail? {
        return Fail(a.error), o;
      }
      res, o2 := Ok(true), a.value;
    }

    /** The ten-argument `read`: the typed read, then the keys block into the keys out-parameters. */
    method ReadWithKeys(ebf: Ebf.EbfData, o: Outs) returns (res: Result<bool>, o2: Outs)
      requires isOpen && ebf.Valid()
      modifies this, ebf, ebf.data
      ensures isOpen && stats == old(stats) && ebf.Valid()
      ensures file == ReadKeyed(old(file), o).0
      ensures res == Status(ReadKeyed(old(file), o).1) && o2 == OutsOf(ReadKeyed(old(file), o).1, o)
      ensures res == Ok(true) ==> ebf.Payload() == ReadKeyed(old(file), o).1.value.value.payload
    {
      ghost var f0 := file;
      res, o2 := Read(ebf, o);
      if res.Fail? || !res.value {
        ReadKeyedStops(f0, o);
        return;
      }
      ReadKeyedGoesOn(f0, o, Got(o2, ebf.Payload()), file);
      var b := ReadRaw();
      if b.Fail? {
        return Fail(b.error), o;
      }
      var a := AssignKeys(o2, b.value);
      if a.Fail? {
        return Fail(a.error), o;
      }
      o2 := a.value;
    }
  }
}
