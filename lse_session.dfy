/**
 * A file written by LSEWriter and read back by LSEReader: the header, then
 * the records in the order they were written, then the end of the file.
 * The reading side follows the sequential loop of the reader test, which
 * keeps calling `read` with the same out-parameters until it returns false.
 */
module Session {
  import opened Base
  import opened Codec
  import opened Stdio
  import Header
  import Ebf
  import Record
  import Reader
  import Writer
  import Context

  /** The arguments of one four-argument `write`. */
  datatype Entry = Entry(ctx: Context.LseContext, payload: Bytes, info: Record.InfoValue, keys: Record.KeysValue)

  /** A record the writer lays down in full and the reader takes back into its buffers. */
  ghost predicate Writable(e: Entry)
  {
    0 < |e.payload| <= Ebf.Capacity && Record.Fits(e.info, e.keys)
  }

  ghost predicate AllWritable(es: seq<Entry>)
  {
    forall i :: 0 <= i < |es| ==> Writable(es[i])
  }

  function EntryImage(e: Entry): (r: Bytes)
    requires |e.payload| <= Ebf.Capacity
  {
    Record.KeyedImage(e.ctx, e.payload, e.info, e.keys)
  }

  /** Byte strings laid end to end. */
  function Flatten(ss: seq<Bytes>): (r: Bytes)
  {
    if |ss| == 0 then [] else ss[0] + Flatten(ss[1..])
  }

  lemma {:induction false} FlattenSnoc(ss: seq<Bytes>, s: Bytes)
    ensures Flatten(ss + [s]) == Flatten(ss) + s
    decreases |ss|
  {
    if |ss| == 0 {
      assert ss + [s] == [s];
    } else {
      assert (ss + [s])[1..] == ss[1..] + [s];
      FlattenSnoc(ss[1..], s);
    }
  }

  /** The image of each record. */
  function ImageList(es: seq<Entry>): (r: seq<Bytes>)
    requires forall i :: 0 <= i < |es| ==> |es[i].payload| <= Ebf.Capacity
  {
    seq(|es|, i requires 0 <= i < |es| => EntryImage(es[i]))
  }

  /** The records of a file, in order. */
  function Images(es: seq<Entry>): (r: Bytes)
    requires forall i :: 0 <= i < |es| ==> |es[i].payload| <= Ebf.Capacity
  {
    Flatten(ImageList(es))
  }

  /** The whole file after a writer for `runid` has written `es`. */
  function FileImage(runid: u32, es: seq<Entry>): (r: Bytes)
    requires forall i :: 0 <= i < |es| ==> |es[i].payload| <= Ebf.Capacity
  {
    Header.Image(Header.Zero().(runid := runid)) + Images(es)
  }

  lemma ImageListSnoc(es: seq<Entry>, e: Entry)
    requires forall i :: 0 <= i < |es| ==> |es[i].payload| <= Ebf.Capacity
    requires |e.payload| <= Ebf.Capacity
    ensures ImageList(es + [e]) == ImageList(es) + [EntryImage(e)]
  {
  }

  /** One more record appends its image. */
  lemma ImagesSnoc(es: seq<Entry>, e: Entry)
    requires forall i :: 0 <= i < |es| ==> |es[i].payload| <= Ebf.Capacity
    requires |e.payload| <= Ebf.Capacity
    ensures Images(es + [e]) == Images(es) + EntryImage(e)
  {
    ImageListSnoc(es, e);
    FlattenSnoc(ImageList(es), EntryImage(e));
  }

  /** One more record appends its image to the whole file. */
  lemma FileImageSnoc(runid: u32, es: seq<Entry>, e: Entry)
    requires AllWritable(es) && Writable(e)
    ensures AllWritable(es + [e])
    ensures FileImage(runid, es + [e]) == FileImage(runid, es) + EntryImage(e)
  {
    forall i | 0 <= i < |es + [e]| ensures Writable((es + [e])[i]) {
      if i < |es| { assert (es + [e])[i] == es[i]; }
    }
    ImagesSnoc(es, e);
  }

  /** Writing one more record onto a file of the form `FileImage` keeps that form. */
  lemma WriteOneMore(f: FileState, runid: u32, es: seq<Entry>, e: Entry)
    requires AllWritable(es) && Writable(e)
    requires f.bytes == FileImage(runid, es) && f.pos == |f.bytes|
    ensures AllWritable(es + [e])
    ensures Writer.WriteKeyed(f, e.ctx, e.payload, e.info, e.keys).1 == Pass
    ensures Writer.WriteKeyed(f, e.ctx, e.payload, e.info, e.keys).0 == f.(bytes := FileImage(runid, es + [e]), pos := |FileImage(runid, es + [e])|)
  {
    FileImageSnoc(runid, es, e);
    assert EntryImage(e) == Record.KeyedImage(e.ctx, e.payload, e.info, e.keys);
    Writer.WriteKeyedAppends(f, e.ctx, e.payload, e.info, e.keys);
  }

  /** The out-parameters and payloads a sequential read hands back for each record, starting from `o`. */
  function Expected(o: Reader.Outs, es: seq<Entry>): (r: seq<Reader.Got>)
    ensures |r| == |es|
    decreases |es|
  {
    if |es| == 0 then []
    else
      var e := es[0];
      var o1 := Next(o, e);
      [Reader.Got(o1, e.payload)] + Expected(o1, es[1..])
  }

  /** A read of one record: the typed read or the keyed read of the merge tool's files. */
  type ReadOp = (FileState, Reader.Outs) -> (FileState, Result<Option<Reader.Got>>)

  /**
   * `n` reads in a row, each with the out-parameters the one before it left;
   * a read that fails or finds no record ends the run.
   */
  function ReadN(read: ReadOp, f: FileState, o: Reader.Outs, n: nat): (r: (FileState, Result<seq<Reader.Got>>))
    decreases n
  {
    if n == 0 then (f, Ok([]))
    else
      var r1 := read(f, o);
      if r1.1.Fail? then (r1.0, Fail(r1.1.error))
      else if r1.1.value.None? then (r1.0, Fail(MissingRecord))
      else
        var rest := ReadN(read, r1.0, r1.1.value.value.outs, n - 1);
        if rest.1.Fail? then rest else (rest.0, Ok([r1.1.value.value] + rest.1.value))
  }

  /** One record read, then the rest. */
  lemma ReadNStep(read: ReadOp, f: FileState, o: Reader.Outs, n: nat, f1: FileState, g: Reader.Got, f2: FileState, gs: seq<Reader.Got>)
    requires 0 < n
    requires read(f, o).0 == f1 && read(f, o).1 == Ok(Some(g))
    requires ReadN(read, f1, g.outs, n - 1).0 == f2 && ReadN(read, f1, g.outs, n - 1).1 == Ok(gs)
    ensures ReadN(read, f, o, n).0 == f2 && ReadN(read, f, o, n).1 == Ok([g] + gs)
  { }

  /** The first expected result and the rest. */
  lemma ExpectedCons(o: Reader.Outs, es: seq<Entry>, o1: Reader.Outs)
    requires 0 < |es|
    requires o1 == Next(o, es[0])
    ensures Expected(o, es) == [Reader.Got(o1, es[0].payload)] + Expected(o1, es[1..])
  { }

  /** The out-parameters the read of `e` leaves, given those it started with. */
  function Next(o: Reader.Outs, e: Entry): Reader.Outs
  {
    Reader.WithKeys(Reader.WithInfo(o.(ctx := e.ctx), e.info), e.keys)
  }

  /** A record of the four-argument `write` reads back with the out-parameters `Next` gives. */
  lemma ReadEntry(f: FileState, o: Reader.Outs, e: Entry)
    requires Writable(e) && !f.eof && At(f, EntryImage(e))
    ensures Reader.ReadKeyed(f, o).0 == f.(pos := f.pos + |EntryImage(e)|)
    ensures Reader.ReadKeyed(f, o).1 == Ok(Some(Reader.Got(Next(o, e), e.payload)))
  {
    Reader.ReadKeyedImage(f, o, e.ctx, e.payload, e.info, e.keys);
  }

  /**
   * From `f` with out-parameters `o`, each `read` finds the next of `es` and
   * the last one leaves the file at `g`.
   */
  ghost predicate ReadsBack(read: ReadOp, f: FileState, o: Reader.Outs, es: seq<Entry>, g: FileState)
    decreases |es|
  {
    if |es| == 0 then f == g
    else
      var r := read(f, o);
      r.1 == Ok(Some(Reader.Got(Next(o, es[0]), es[0].payload))) && ReadsBack(read, r.0, Next(o, es[0]), es[1..], g)
  }

  /** Reads that each find their record make up a run of reads that finds them all. */
  lemma {:induction false} ReadNReadsBack(read: ReadOp, f: FileState, o: Reader.Outs, es: seq<Entry>, g: FileState)
    requires ReadsBack(read, f, o, es, g)
    ensures ReadN(read, f, o, |es|).0 == g && ReadN(read, f, o, |es|).1 == Ok(Expected(o, es))
    decreases |es|
  {
    if |es| > 0 {
      var f1, o1 := read(f, o).0, Next(o, es[0]);
      ReadNReadsBack(read, f1, o1, es[1..], g);
      ExpectedCons(o, es, o1);
      ReadNStep(read, f, o, |es|, f1, Reader.Got(o1, es[0].payload), g, Expected(o1, es[1..]));
    }
  }

  /** One read that finds its record, then reads that find the rest. */
  lemma ReadsBackCons(read: ReadOp, f: FileState, o: Reader.Outs, es: seq<Entry>, f1: FileState, g: FileState)
    requires 0 < |es| && read(f, o).0 == f1 && read(f, o).1 == Ok(Some(Reader.Got(Next(o, es[0]), es[0].payload)))
    requires ReadsBack(read, f1, Next(o, es[0]), es[1..], g)
    ensures ReadsBack(read, f, o, es, g)
  { }

  /** The first of a run of images, and the rest after it. */
  lemma AtFlattenFirst(f: FileState, ss: seq<Bytes>)
    requires 0 < |ss| && At(f, Flatten(ss))
    ensures At(f, ss[0]) && At(f.(pos := f.pos + |ss[0]|), Flatten(ss[1..]))
    ensures |Flatten(ss)| == |ss[0]| + |Flatten(ss[1..])|
  {
    AtSplit(f, ss[0], Flatten(ss[1..]));
  }

  /** `read` takes back the `i`th of `es` from its image `ss[i]`, wherever that lies. */
  ghost predicate ReadsEach(read: ReadOp, es: seq<Entry>, ss: seq<Bytes>)
    requires |ss| == |es|
  {
    forall i, f: FileState, o: Reader.Outs {:trigger At(f, ss[i]), read(f, o)} :: 0 <= i < |es| && !f.eof && At(f, ss[i]) ==>
      read(f, o).0 == f.(pos := f.pos + |ss[i]|) && read(f, o).1 == Ok(Some(Reader.Got(Next(o, es[i]), es[i].payload)))
  }

  lemma ReadsEachTail(read: ReadOp, es: seq<Entry>, ss: seq<Bytes>)
    requires 0 < |es| && |ss| == |es| && ReadsEach(read, es, ss)
    ensures ReadsEach(read, es[1..], ss[1..])
  {
    forall i, f: FileState, o: Reader.Outs | 0 <= i < |es[1..]| && !f.eof && At(f, ss[1..][i])
      ensures read(f, o).0 == f.(pos := f.pos + |ss[1..][i]|)
      ensures read(f, o).1 == Ok(Some(Reader.Got(Next(o, es[1..][i]), es[1..][i].payload)))
    {
      assert ss[1..][i] == ss[i + 1] && es[1..][i] == es[i + 1];
    }
  }

  /** Images laid down one after another read back one after another. */
  lemma {:induction false} FlattenReadsBack(read: ReadOp, f: FileState, o: Reader.Outs, es: seq<Entry>, ss: seq<Bytes>)
    requires |ss| == |es| && ReadsEach(read, es, ss)
    requires !f.eof && At(f, Flatten(ss))
    ensures ReadsBack(read, f, o, es, f.(pos := f.pos + |Flatten(ss)|))
    decreases |es|
  {
    if |es| > 0 {
      AtFlattenFirst(f, ss);
      var f1 := f.(pos := f.pos + |ss[0]|);
      assert read(f, o).0 == f1 && read(f, o).1 == Ok(Some(Reader.Got(Next(o, es[0]), es[0].payload)));
      var g := f1.(pos := f1.pos + |Flatten(ss[1..])|);
      ReadsEachTail(read, es, ss);
      FlattenReadsBack(read, f1, Next(o, es[0]), es[1..], ss[1..]);
      ReadsBackCons(read, f, o, es, f1, g);
      assert g == f.(pos := f.pos + |Flatten(ss)|);
    }
  }

  lemma ReadEntryAt(f: FileState, o: Reader.Outs, es: seq<Entry>, i: int)
    requires AllWritable(es) && 0 <= i < |es| && !f.eof && At(f, ImageList(es)[i])
    ensures Reader.ReadKeyed(f, o).0 == f.(pos := f.pos + |ImageList(es)[i]|)
    ensures Reader.ReadKeyed(f, o).1 == Ok(Some(Reader.Got(Next(o, es[i]), es[i].payload)))
  {
    assert Writable(es[i]);
    ReadEntry(f, o, es[i]);
  }

  /** The keyed read takes back each record from its image. */
  lemma KeyedReadsEach(es: seq<Entry>)
    requires AllWritable(es)
    ensures ReadsEach(Reader.ReadKeyed, es, ImageList(es))
  {
    var read: ReadOp := Reader.ReadKeyed;
    var ss := ImageList(es);
    forall i, f: FileState, o: Reader.Outs {:trigger At(f, ss[i]), read(f, o)} | 0 <= i < |es| && !f.eof && At(f, ss[i])
      ensures read(f, o).0 == f.(pos := f.pos + |ss[i]|)
      ensures read(f, o).1 == Ok(Some(Reader.Got(Next(o, es[i]), es[i].payload)))
    {
      ReadEntryAt(f, o, es, i);
    }
  }

  lemma ReadNImages(f: FileState, o: Reader.Outs, es: seq<Entry>)
    requires AllWritable(es) && !f.eof && At(f, Images(es))
    ensures ReadN(Reader.ReadKeyed, f, o, |es|).0 == f.(pos := f.pos + |Images(es)|)
    ensures ReadN(Reader.ReadKeyed, f, o, |es|).1 == Ok(Expected(o, es))
  {
    var ss := ImageList(es);
    assert Images(es) == Flatten(ss);
    var g := f.(pos := f.pos + |Flatten(ss)|);
    KeyedReadsEach(es);
    FlattenReadsBack(Reader.ReadKeyed, f, o, es, ss);
    ReadNReadsBack(Reader.ReadKeyed, f, o, es, g);
  }

  /**
   * Round trip of a whole file: the corrected header read finds the writer's
   * run id and zero statistics, the records come back in the order written,
   * and the read after the last one reports the end of the file.
   */
  lemma FileRoundTrip(runid: u32, es: seq<Entry>, o: Reader.Outs)
    requires AllWritable(es)
    ensures Reader.ReadStats(Opened(FileImage(runid, es))).1 == Ok(Reader.Stats(runid, 0, 0, 0))
    ensures Reader.ReadStats(Opened(FileImage(runid, es))).0.pos == Reader.FirstRecord
    ensures ReadN(Reader.ReadKeyed, Reader.ReadStats(Opened(FileImage(runid, es))).0, o, |es|).1 == Ok(Expected(o, es))
    ensures Reader.ReadKeyed(ReadN(Reader.ReadKeyed, Reader.ReadStats(Opened(FileImage(runid, es))).0, o, |es|).0, o).1 == Ok(None)
  {
    var v := Header.Zero().(runid := runid);
    var bytes := FileImage(runid, es);
    var f := Opened(bytes);
    assert At(SeekSet(f, 0), Header.Image(v) + Images(es));
    AtSplit(SeekSet(f, 0), Header.Image(v), Images(es));
    Reader.ReadStatsOnHeader(f, v);
    var f1 := Reader.ReadStats(f).0;
    assert f1.bytes == bytes && f1.pos == 4 + Header.BlockSize && !f1.eof;
    ReadNImages(f1, o, es);
    Reader.ReadAtEnd(ReadN(Reader.ReadKeyed, f1, o, |es|).0, o);
  }
}
