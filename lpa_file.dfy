/**
 * LPA_File: the older merged-LPA format.  A file starts with the run id
 * word; after it come records of a raw context, the LPA info and the
 * length-prefixed payload, with no tags and no header block.
 */
module LpaFile {
  import opened Base
  import opened Codec
  import opened Stdio
  import Context
  import Info
  import Ebf
  import Reader
  import Session

  /** `LPA_File::Mode`: the file is opened "rb" or "wb". */
  datatype Mode = ReadMode | WriteMode

  /** One record: the three arguments of `write`, or the three out-parameters of `read`. */
  datatype LpaRecord = LpaRecord(ctx: Context.LseContext, info: Info.LpaInfo, payload: Bytes)

  /** The bytes of one record: context, LPA info, payload blob. */
  function RecordImage(ctx: Context.LseContext, x: Info.LpaInfo, p: Bytes): (r: Bytes)
    requires |p| <= Ebf.Capacity
    ensures |r| == Context.ContextSize + |Info.LpaBody(x)| + 4 + |p|
  {
    Context.Image(ctx) + (Info.LpaBody(x) + Ebf.Image(p))
  }

  /** `write`: the context, then the info, each checked; then the payload's own `write`. */
  function WriteRecord(f: FileState, ctx: Context.LseContext, x: Info.LpaInfo, p: Bytes): (r: (FileState, Outcome))
    requires |p| <= Ebf.Capacity && f.pos <= |f.bytes|
    ensures r.0.pos <= |r.0.bytes| && r.0.eof == f.eof
  {
    var (f1, ok1) := Fwrite(f, Context.Image(ctx));
    if !ok1 then (f1, Throw(ShortWrite))
    else
      var (f2, ok2) := Fwrite(f1, Info.LpaBody(x));
      if !ok2 then (f2, Throw(ShortWrite))
      else Ebf.WriteBlob(f2, p)
  }

  /**
   * `read`: nothing when the indicator is already set or the context runs
   * into the end of the file; a short context that did not reach the end,
   * a short info or a short payload is an error.  The info is read into a
   * fresh object, since the assignment replaces the caller's whole one.
   */
  function ReadRecord(f: FileState): (r: (FileState, Result<Option<LpaRecord>>))
    ensures r.0.bytes == f.bytes
    ensures r.1.Ok? && r.1.value.Some? ==> 0 < |r.1.value.value.payload| <= Ebf.Capacity
  {
    if f.eof then (f, Ok(None))
    else
      var (f1, c) := Fread(f, Context.ContextSize);
      if c.None? then (f1, if f1.eof then Ok(None) else Fail(ShortRead))
      else
        var (f2, i) := Info.ReadLpaInfo(f1, Info.EmptyLpa());
        if i.Fail? then (f2, Fail(i.error))
        else
          var (f3, b) := Ebf.ReadBlob(f2);
          if b.Fail? then (f3, Fail(b.error))
          else (f3, Ok(Some(LpaRecord(Context.Decode(c.value), i.value, b.value))))
  }

  /** What a record reads back as: the info keeps only the handlers `write` counted. */
  function Stored(e: LpaRecord): (r: LpaRecord)
    ensures r.ctx == e.ctx && r.payload == e.payload && r.info.fixed == e.info.fixed
    ensures |e.info.handlers| < 0x1_0000_0000 ==> r == e
  {
    e.(info := Info.LpaInfo(e.info.fixed, e.info.handlers[..Info.Count(e.info)]))
  }

  /** A record `write` lays down in full: the payload blob is not empty and fits the buffer. */
  ghost predicate Writable(e: LpaRecord)
  {
    0 < |e.payload| <= Ebf.Capacity
  }

  function EntryImage(e: LpaRecord): (r: Bytes)
    requires |e.payload| <= Ebf.Capacity
  {
    RecordImage(e.ctx, e.info, e.payload)
  }

  // ---------------------------------------------------------------------------
  // One record

  /** Once the context and the info are written, what remains is the payload's `write`. */
  lemma WriteRecordThen(f: FileState, ctx: Context.LseContext, x: Info.LpaInfo, p: Bytes, f1: FileState, f2: FileState)
    requires |p| <= Ebf.Capacity && f.pos <= |f.bytes|
    requires Fwrite(f, Context.Image(ctx)) == (f1, true) && Fwrite(f1, Info.LpaBody(x)) == (f2, true)
    ensures WriteRecord(f, ctx, x, p) == Ebf.WriteBlob(f2, p)
  { }

  /** At the end of a file, `write` appends the record's image, and fails only on an empty payload. */
  lemma WriteRecordAppends(f: FileState, ctx: Context.LseContext, x: Info.LpaInfo, p: Bytes)
    requires |p| <= Ebf.Capacity && f.pos == |f.bytes|
    ensures WriteRecord(f, ctx, x, p).1 == (if |p| == 0 then Throw(ShortWrite) else Pass)
    ensures 0 < |p| ==> WriteRecord(f, ctx, x, p).0 == f.(bytes := f.bytes + RecordImage(ctx, x, p), pos := |f.bytes| + |RecordImage(ctx, x, p)|)
  {
    var c, b := Context.Image(ctx), Info.LpaBody(x);
    FwriteAppends(f, c);
    var f1 := f.(bytes := f.bytes + c, pos := |f.bytes| + |c|);
    FwriteAppends(f1, b);
    var f2 := f1.(bytes := f1.bytes + b, pos := |f1.bytes| + |b|);
    WriteRecordThen(f, ctx, x, p, f1, f2);
    Ebf.WriteBlobAppends(f2, p);
    Append3(f.bytes, c, b, Ebf.Image(p));
  }

  lemma Append3(a: Bytes, c: Bytes, b: Bytes, d: Bytes)
    ensures a + c + b + d == a + (c + (b + d))
  { }

  /** Three reads that each succeed make a record. */
  lemma ReadRecordThen(f: FileState, f1: FileState, c: Bytes, f2: FileState, x: Info.LpaInfo, f3: FileState, p: Bytes)
    requires !f.eof && Fread(f, Context.ContextSize) == (f1, Some(c))
    requires Info.ReadLpaInfo(f1, Info.EmptyLpa()) == (f2, Ok(x)) && Ebf.ReadBlob(f2) == (f3, Ok(p))
    ensures ReadRecord(f) == (f3, Ok(Some(LpaRecord(Context.Decode(c), x, p))))
  { }

  /** The three reads of `read` over the three parts of a record, each where the one before it ends. */
  lemma ReadRecordSteps(f: FileState, c: Bytes, x: Info.LpaInfo, p: Bytes, f1: FileState, f2: FileState)
    requires |c| == Context.ContextSize && 0 < |p| <= Ebf.Capacity && !f.eof
    requires At(f, c) && f1 == f.(pos := f.pos + |c|)
    requires At(f1, Info.LpaBody(x)) && f2 == f1.(pos := f1.pos + |Info.LpaBody(x)|)
    requires At(f2, Ebf.Image(p))
    ensures ReadRecord(f) == (f2.(pos := f2.pos + 4 + |p|), Ok(Some(LpaRecord(Context.Decode(c), Info.LpaInfo(x.fixed, x.handlers[..Info.Count(x)]), p))))
  {
    FreadAt(f, c);
    Info.ReadLpaInfoBody(f1, x);
    Ebf.ReadBlobImage(f2, p);
    ReadRecordThen(f, f1, c, f2, Info.LpaInfo(x.fixed, x.handlers[..Info.Count(x)]), f2.(pos := f2.pos + 4 + |p|), p);
  }

  /** A record's image splits into its context, its info and its payload blob. */
  lemma SplitRecord(f: FileState, e: LpaRecord)
    requires |e.payload| <= Ebf.Capacity && At(f, EntryImage(e))
    ensures At(f, Context.Image(e.ctx))
    ensures At(f.(pos := f.pos + Context.ContextSize), Info.LpaBody(e.info))
    ensures At(f.(pos := f.pos + Context.ContextSize + |Info.LpaBody(e.info)|), Ebf.Image(e.payload))
  {
    var c, b, q := Context.Image(e.ctx), Info.LpaBody(e.info), Ebf.Image(e.payload);
    assert EntryImage(e) == c + (b + q);
    AtSplit(f, c, b + q);
    AtSplit(f.(pos := f.pos + |c|), b, q);
  }

  /** Round trip of one record: `read` where `write` put it returns it, and moves past it. */
  lemma ReadRecordImage(f: FileState, e: LpaRecord)
    requires Writable(e) && !f.eof && At(f, EntryImage(e))
    ensures ReadRecord(f).0 == f.(pos := f.pos + |EntryImage(e)|)
    ensures ReadRecord(f).1 == Ok(Some(Stored(e)))
  {
    SplitRecord(f, e);
    var f1 := f.(pos := f.pos + Context.ContextSize);
    ReadRecordSteps(f, Context.Image(e.ctx), e.info, e.payload, f1, f1.(pos := f1.pos + |Info.LpaBody(e.info)|));
    Context.RoundTrip(e.ctx);
  }

  /** At the end of the file, or once the indicator is set, `read` reports that there is no record. */
  lemma ReadAtEnd(f: FileState)
    requires f.eof || f.pos >= |f.bytes|
    ensures ReadRecord(f).1 == Ok(None)
  { }

  /** A whole context followed by a short info is an error, not the end of the file. */
  lemma ShortInfoFails(f: FileState)
    requires !f.eof && f.pos + Context.ContextSize <= |f.bytes| < f.pos + Context.ContextSize + Info.LpaFixedSize + 4
    ensures ReadRecord(f).1 == Fail(ShortRead)
  {
    var f1 := f.(pos := f.pos + Context.ContextSize);
    assert Fread(f, Context.ContextSize).0 == f1;
    assert Info.ReadLpaInfo(f1, Info.EmptyLpa()).1 == Fail(ShortRead);
  }

  /** A context that runs into the end of the file ends the reading without an error. */
  lemma ShortContextEnds(f: FileState)
    requires !f.eof && f.pos < |f.bytes| < f.pos + Context.ContextSize
    ensures ReadRecord(f).1 == Ok(None)
    ensures ReadRecord(f).0.eof
  { }

  // ---------------------------------------------------------------------------
  // A whole file

  /** The records of a file, laid end to end. */
  function ImageList(es: seq<LpaRecord>): (r: seq<Bytes>)
    requires forall i :: 0 <= i < |es| ==> |es[i].payload| <= Ebf.Capacity
  {
    seq(|es|, i requires 0 <= i < |es| => EntryImage(es[i]))
  }

  function Images(es: seq<LpaRecord>): (r: Bytes)
    requires forall i :: 0 <= i < |es| ==> |es[i].payload| <= Ebf.Capacity
  {
    Session.Flatten(ImageList(es))
  }

  ghost predicate AllWritable(es: seq<LpaRecord>)
  {
    forall i :: 0 <= i < |es| ==> Writable(es[i])
  }

  /** The whole file after a write-mode `LPA_File` for `runid` has written `es`. */
  function FileImage(runid: u32, es: seq<LpaRecord>): (r: Bytes)
    requires forall i :: 0 <= i < |es| ==> |es[i].payload| <= Ebf.Capacity
  {
    U32(runid) + Images(es)
  }

  /** One more record appends its image to the whole file. */
  lemma FileImageSnoc(runid: u32, es: seq<LpaRecord>, e: LpaRecord)
    requires AllWritable(es) && Writable(e)
    ensures AllWritable(es + [e])
    ensures FileImage(runid, es + [e]) == FileImage(runid, es) + EntryImage(e)
  {
    forall i | 0 <= i < |es + [e]| ensures Writable((es + [e])[i]) {
      if i < |es| { assert (es + [e])[i] == es[i]; }
    }
    ImagesSnoc(es, e);
  }

  lemma ImageListSnoc(es: seq<LpaRecord>, e: LpaRecord)
    requires forall i :: 0 <= i < |es| ==> |es[i].payload| <= Ebf.Capacity
    requires |e.payload| <= Ebf.Capacity
    ensures ImageList(es + [e]) == ImageList(es) + [EntryImage(e)]
  {
  }

  lemma ImagesSnoc(es: seq<LpaRecord>, e: LpaRecord)
    requires forall i :: 0 <= i < |es| ==> |es[i].payload| <= Ebf.Capacity
    requires |e.payload| <= Ebf.Capacity
    ensures Images(es + [e]) == Images(es) + EntryImage(e)
  {
    ImageListSnoc(es, e);
    Session.FlattenSnoc(ImageList(es), EntryImage(e));
  }

  /** Writing one more record onto a file of the form `FileImage` keeps that form. */
  lemma WriteOneMore(f: FileState, runid: u32, es: seq<LpaRecord>, e: LpaRecord)
    requires AllWritable(es) && Writable(e)
    requires f.bytes == FileImage(runid, es) && f.pos == |f.bytes|
    ensures AllWritable(es + [e])
    ensures WriteRecord(f, e.ctx, e.info, e.payload).1 == Pass
    ensures WriteRecord(f, e.ctx, e.info, e.payload).0 == f.(bytes := FileImage(runid, es + [e]), pos := |FileImage(runid, es + [e])|)
  {
    FileImageSnoc(runid, es, e);
    WriteRecordAppends(f, e.ctx, e.info, e.payload);
  }

  /** A read of one record, as a value the inductions below can pass around. */
  type ReadOp = FileState -> (FileState, Result<Option<LpaRecord>>)

  /** `n` calls of `read` in a row; one that fails or finds no record ends the run. */
  function ReadN(read: ReadOp, f: FileState, n: nat): (r: (FileState, Result<seq<LpaRecord>>))
    decreases n
  {
    if n == 0 then (f, Ok([]))
    else
      var r1 := read(f);
      if r1.1.Fail? then (r1.0, Fail(r1.1.error))
      else if r1.1.value.None? then (r1.0, Fail(MissingRecord))
      else
        var rest := ReadN(read, r1.0, n - 1);
        if rest.1.Fail? then rest else (rest.0, Ok([r1.1.value.value] + rest.1.value))
  }

  /** What the records read back as, in order. */
  function StoredAll(es: seq<LpaRecord>): (r: seq<LpaRecord>)
    ensures |r| == |es|
    ensures forall i :: 0 <= i < |es| ==> r[i] == Stored(es[i])
  {
    seq(|es|, i requires 0 <= i < |es| => Stored(es[i]))
  }

  /** From `f`, each `read` finds the next of `es` and the last one leaves the file at `g`. */
  ghost predicate ReadsBack(read: ReadOp, f: FileState, es: seq<LpaRecord>, g: FileState)
    decreases |es|
  {
    if |es| == 0 then f == g
    else read(f).1 == Ok(Some(Stored(es[0]))) && ReadsBack(read, read(f).0, es[1..], g)
  }

  lemma {:induction false} ReadNReadsBack(read: ReadOp, f: FileState, es: seq<LpaRecord>, g: FileState)
    requires ReadsBack(read, f, es, g)
    ensures ReadN(read, f, |es|).0 == g && ReadN(read, f, |es|).1 == Ok(StoredAll(es))
    decreases |es|
  {
    if |es| > 0 {
      ReadNReadsBack(read, read(f).0, es[1..], g);
      assert StoredAll(es) == [Stored(es[0])] + StoredAll(es[1..]);
    }
  }

  /** `read` takes back the `i`th of `es` from its image `ss[i]`, wherever that lies. */
  ghost predicate ReadsEach(read: ReadOp, es: seq<LpaRecord>, ss: seq<Bytes>)
    requires |ss| == |es|
  {
    forall i, f: FileState {:trigger At(f, ss[i]), read(f)} :: 0 <= i < |es| && !f.eof && At(f, ss[i]) ==>
      read(f).0 == f.(pos := f.pos + |ss[i]|) && read(f).1 == Ok(Some(Stored(es[i])))
  }

  lemma ReadsEachTail(read: ReadOp, es: seq<LpaRecord>, ss: seq<Bytes>)
    requires 0 < |es| && |ss| == |es| && ReadsEach(read, es, ss)
    ensures ReadsEach(read, es[1..], ss[1..])
  {
    forall i, f: FileState | 0 <= i < |es[1..]| && !f.eof && At(f, ss[1..][i])
      ensures read(f).0 == f.(pos := f.pos + |ss[1..][i]|)
      ensures read(f).1 == Ok(Some(Stored(es[1..][i])))
    {
      assert ss[1..][i] == ss[i + 1] && es[1..][i] == es[i + 1];
    }
  }

  /** Images laid down one after another read back one after another. */
  lemma {:induction false} FlattenReadsBack(read: ReadOp, f: FileState, es: seq<LpaRecord>, ss: seq<Bytes>)
    requires |ss| == |es| && ReadsEach(read, es, ss)
    requires !f.eof && At(f, Session.Flatten(ss))
    ensures ReadsBack(read, f, es, f.(pos := f.pos + |Session.Flatten(ss)|))
    decreases |es|
  {
    if |es| > 0 {
      Session.AtFlattenFirst(f, ss);
      var f1 := f.(pos := f.pos + |ss[0]|);
      assert read(f).0 == f1 && read(f).1 == Ok(Some(Stored(es[0])));
      ReadsEachTail(read, es, ss);
      FlattenReadsBack(read, f1, es[1..], ss[1..]);
      assert f1.(pos := f1.pos + |Session.Flatten(ss[1..])|) == f.(pos := f.pos + |Session.Flatten(ss)|);
    }
  }

  lemma ReadRecordAt(f: FileState, es: seq<LpaRecord>, i: int)
    requires AllWritable(es) && 0 <= i < |es| && !f.eof && At(f, ImageList(es)[i])
    ensures ReadRecord(f).0 == f.(pos := f.pos + |ImageList(es)[i]|)
    ensures ReadRecord(f).1 == Ok(Some(Stored(es[i])))
  {
    assert Writable(es[i]);
    ReadRecordImage(f, es[i]);
  }

  lemma RecordsReadEach(es: seq<LpaRecord>)
    requires AllWritable(es)
    ensures ReadsEach(ReadRecord, es, ImageList(es))
  {
    var read: ReadOp := ReadRecord;
    var ss := ImageList(es);
    forall i, f: FileState {:trigger At(f, ss[i]), read(f)} | 0 <= i < |es| && !f.eof && At(f, ss[i])
      ensures read(f).0 == f.(pos := f.pos + |ss[i]|)
      ensures read(f).1 == Ok(Some(Stored(es[i])))
    {
      ReadRecordAt(f, es, i);
    }
  }

  lemma ReadNImages(f: FileState, es: seq<LpaRecord>)
    requires AllWritable(es) && !f.eof && At(f, Images(es))
    ensures ReadN(ReadRecord, f, |es|).0 == f.(pos := f.pos + |Images(es)|)
    ensures ReadN(ReadRecord, f, |es|).1 == Ok(StoredAll(es))
  {
    var ss := ImageList(es);
    assert Images(es) == Session.Flatten(ss);
    RecordsReadEach(es);
    FlattenReadsBack(ReadRecord, f, es, ss);
    ReadNReadsBack(ReadRecord, f, es, f.(pos := f.pos + |Session.Flatten(ss)|));
  }

  /** A read-mode open of a written file takes back the run id and leaves the cursor on the first record. */
  lemma OpenReadsRunId(runid: u32, es: seq<LpaRecord>, prior: u32)
    requires AllWritable(es)
    ensures Reader.ReadWordOr(Opened(FileImage(runid, es)), prior).1 == runid
    ensures Reader.ReadWordOr(Opened(FileImage(runid, es)), prior).0 == Opened(FileImage(runid, es)).(pos := 4)
    ensures At(Opened(FileImage(runid, es)).(pos := 4), Images(es))
  {
    var bytes := FileImage(runid, es);
    assert bytes[..4] == U32(runid);
    assert bytes[4..4 + |Images(es)|] == Images(es);
    U32RoundTrip(runid);
  }

  /**
   * Round trip of a whole file: a read-mode open takes back the run id,
   * the records come back in the order written, and the read after the
   * last one reports that there are no more.
   */
  lemma FileRoundTrip(runid: u32, es: seq<LpaRecord>, prior: u32)
    requires AllWritable(es)
    ensures Reader.ReadWordOr(Opened(FileImage(runid, es)), prior).1 == runid
    ensures ReadN(ReadRecord, Reader.ReadWordOr(Opened(FileImage(runid, es)), prior).0, |es|).1 == Ok(StoredAll(es))
    ensures ReadRecord(ReadN(ReadRecord, Reader.ReadWordOr(Opened(FileImage(runid, es)), prior).0, |es|).0).1 == Ok(None)
  {
    OpenReadsRunId(runid, es, prior);
    var f1 := Opened(FileImage(runid, es)).(pos := 4);
    ReadNImages(f1, es);
    ReadAtEnd(ReadN(ReadRecord, f1, |es|).0);
  }

  // ---------------------------------------------------------------------------
  // The file object

  /** The success flag `read` returns, or the error it throws. */
  function Status(r: Result<Option<LpaRecord>>): (b: Result<bool>)
    ensures b.Ok? <==> r.Ok?
    ensures b == Ok(false) <==> r == Ok(None)
  {
    if r.Fail? then Fail(r.error) else Ok(r.value.Some?)
  }

  class LpaFile {
    const name: string
    const mode: Mode
    var runid: u32
    var evtcnt: u64
    var begGEM: u64
    var endGEM: u64
    var file: FileState
    var isOpen: bool

    /** The cursor never passes the end of what is written. */
    ghost predicate Valid()
      reads this
    {
      file.pos <= |file.bytes|
    }

    /**
     * The constructor once `fopen` has succeeded: a read-mode file takes its
     * run id from the first word (an unchecked read, so a short file keeps
     * the given one); a write-mode file starts empty and gets the word.
     */
    constructor (name: string, mode: Mode, runid: u32, contents: Bytes)
      ensures this.name == name && this.mode == mode && isOpen && Valid()
      ensures evtcnt == 0 && begGEM == 0 && endGEM == 0
      ensures mode == ReadMode ==> (file, this.runid) == Reader.ReadWordOr(Opened(contents), runid)
      ensures mode == WriteMode ==> this.runid == runid && file == Opened(U32(runid)).(pos := 4)
    {
      this.name := name;
      this.mode := mode;
      evtcnt, begGEM, endGEM := 0, 0, 0;
      isOpen := true;
      if mode == ReadMode {
        var w := Reader.ReadWordOr(Opened(contents), runid);
        file, this.runid := w.0, w.1;
      } else {
        this.runid := runid;
        file := Fwrite(Opened([]), U32(runid)).0;
      }
    }

    /** `fopen` with "rb" fails on a missing file; "wb" creates or truncates one. */
    static method Open(fs: map<string, Bytes>, name: string, mode: Mode, runid: u32) returns (r: Result<LpaFile>)
      ensures mode == ReadMode && name !in fs ==> r == Fail(OpenError)
      ensures r.Ok? <==> mode == WriteMode || name in fs
      ensures r.Ok? ==> fresh(r.value) && r.value.isOpen && r.value.Valid() && r.value.name == name && r.value.mode == mode
      ensures r.Ok? && mode == ReadMode ==> (r.value.file, r.value.runid) == Reader.ReadWordOr(Opened(fs[name]), runid)
      ensures r.Ok? && mode == WriteMode ==> r.value.runid == runid && r.value.file.bytes == U32(runid)
    {
      if mode == ReadMode && name !in fs {
        return Fail(OpenError);
      }
      var lf := new LpaFile(name, mode, runid, if mode == ReadMode then fs[name] else []);
      r := Ok(lf);
    }

    /** `close`: releases the file once; a second call does nothing. */
    method Close()
      modifies this
      ensures !isOpen && file == old(file) && runid == old(runid)
    {
      if isOpen {
        isOpen := false;
      }
    }

    /** `write`: context, info, payload, in that order. */
    method Write(ctx: Context.LseContext, x: Info.LpaInfo, ebf: Ebf.EbfData) returns (out: Outcome)
      requires isOpen && mode == WriteMode && Valid() && ebf.Valid()
      modifies this
      ensures isOpen && Valid() && runid == old(runid)
      ensures (file, out) == WriteRecord(old(file), ctx, x, ebf.Payload())
    {
      var (f1, ok1) := Fwrite(file, Context.Image(ctx));
      file := f1;
      if !ok1 {
        return Throw(ShortWrite);
      }
      var (f2, ok2) := Fwrite(file, Info.LpaBody(x));
      file := f2;
      if !ok2 {
        return Throw(ShortWrite);
      }
      var g;
      g, out := ebf.Write(file);
      file := g;
    }

    /**
     * `read`: `Ok(false)` with the out-parameters untouched when there is no
     * further record; `Ok(true)` with the record's context and info in the
     * out-parameters and its payload in `ebf`.
     */
    method Read(ebf: Ebf.EbfData, ctx0: Context.LseContext, x0: Info.LpaInfo) returns (res: Result<bool>, ctx: Context.LseContext, x: Info.LpaInfo)
      requires isOpen && mode == ReadMode && ebf.Valid()
      modifies this, ebf, ebf.data
      ensures isOpen && runid == old(runid) && ebf.Valid()
      ensures file == ReadRecord(old(file)).0 && res == Status(ReadRecord(old(file)).1)
      ensures res == Ok(true) ==> LpaRecord(ctx, x, ebf.Payload()) == ReadRecord(old(file)).1.value.value
      ensures res == Ok(false) ==> ctx == ctx0 && x == x0
    {
      ctx, x := ctx0, x0;
      if file.eof {
        return Ok(false), ctx, x;
      }
      var c := Fread(file, Context.ContextSize);
      file := c.0;
      if c.1.None? {
        if file.eof {
          return Ok(false), ctx, x;
        }
        return Fail(ShortRead), ctx, x;
      }
      ctx := Context.Decode(c.1.value);
      var i := Info.ReadLpaInfo(file, Info.EmptyLpa());
      file := i.0;
      if i.1.Fail? {
        return Fail(i.1.error), ctx, x;
      }
      x := i.1.value;
      var g, out := ebf.Read(file);
      file := g;
      if out.Throw? {
        return Fail(out.error), ctx, x;
      }
      res := Ok(true);
    }

    /** The statistic setters: each changes its own field and nothing else. */
    method SetEvtcnt(n: u64)
      modifies this
      ensures evtcnt == n && begGEM == old(begGEM) && endGEM == old(endGEM) && file == old(file) && runid == old(runid) && isOpen == old(isOpen)
    {
      evtcnt := n;
    }

    method SetBegGEM(n: u64)
      modifies this
      ensures begGEM == n && evtcnt == old(evtcnt) && endGEM == old(endGEM) && file == old(file) && runid == old(runid) && isOpen == old(isOpen)
    {
      begGEM := n;
    }

    method SetEndGEM(n: u64)
      modifies this
      ensures endGEM == n && evtcnt == old(evtcnt) && begGEM == old(begGEM) && file == old(file) && runid == old(runid) && isOpen == old(isOpen)
    {
      endGEM := n;
    }
  }
}
