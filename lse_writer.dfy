/**
 * LSEWriter: creates an .evt file, lays the header down at the front, and
 * appends records behind it.  The header object holds the run id the writer
 * was given and is written again, unchanged, when the writer is closed.
 */
module Writer {
  import opened Base
  import opened Codec
  import opened Stdio
  import Header
  import Context
  import Ebf
  import Record

  // ---------------------------------------------------------------------------
  // The stream operations of LSEWriter, as functions of the file

  /** `writeHeader`: seek to 0, `LSEHeader::write`, seek back to the end of the file. */
  function WriteHeaderAt(f: FileState, v: Header.HeaderValue): (g: FileState)
    requires Header.WellFormed(v) && f.pos <= |f.bytes|
    ensures At(g.(pos := 0), Header.Image(v)) && g.pos == |g.bytes| && !g.eof
  {
    Header.WriteAtCursor(SeekSet(f, 0), v);
    SeekEnd(Fwrite(Fwrite(SeekSet(f, 0), U32(Header.Magic)).0, Header.Block(v)).0)
  }

  /** `write(ctx, ebf)`: the context image, then the payload through `EBF_Data::write`. */
  function WriteCommon(f: FileState, ctx: Context.LseContext, p: Bytes): (r: (FileState, Outcome))
    requires |p| <= Ebf.Capacity && f.pos <= |f.bytes|
    ensures r.0.pos <= |r.0.bytes| && r.0.eof == f.eof
  {
    var w := Fwrite(f, Context.Image(ctx));
    if !w.1 then (w.0, Throw(ShortWrite)) else Ebf.WriteBlob(w.0, p)
  }

  /** `write(itype, buf, len)`: the tag, the length as a 64-bit `size_t`, then the body; each fwrite is checked. */
  function WriteBlock(f: FileState, tag: int32, body: Bytes): (r: (FileState, Outcome))
    requires |body| < 0x1_0000_0000_0000_0000 && f.pos <= |f.bytes|
    ensures r.0.pos <= |r.0.bytes| && r.0.eof == f.eof
  {
    var w1 := Fwrite(f, I32(tag));
    if !w1.1 then (w1.0, Throw(ShortWrite))
    else
      var w2 := Fwrite(w1.0, U64(|body|));
      if !w2.1 then (w2.0, Throw(ShortWrite))
      else
        var w3 := Fwrite(w2.0, body);
        if !w3.1 then (w3.0, Throw(ShortWrite)) else (w3.0, Pass)
  }

  /** A typed `write`: the common part, then the info block under the tag of the info's type. */
  function WriteTyped(f: FileState, ctx: Context.LseContext, p: Bytes, v: Record.InfoValue): (r: (FileState, Outcome))
    requires |p| <= Ebf.Capacity && f.pos <= |f.bytes|
    ensures r.0.pos <= |r.0.bytes| && r.0.eof == f.eof
  {
    var c := WriteCommon(f, ctx, p);
    if c.1.Throw? then c else WriteBlock(c.0, Record.InfoTag(v), Record.InfoBody(v))
  }

  /** The merge tool's four-argument `write`: the typed record, then the keys block. */
  function WriteKeyed(f: FileState, ctx: Context.LseContext, p: Bytes, v: Record.InfoValue, k: Record.KeysValue): (r: (FileState, Outcome))
    requires |p| <= Ebf.Capacity && f.pos <= |f.bytes|
    ensures r.0.pos <= |r.0.bytes| && r.0.eof == f.eof
  {
    var t := WriteTyped(f, ctx, p, v);
    if t.1.Throw? then t else WriteBlock(t.0, Record.KeysTag(k), Record.KeysBody(k))
  }

  // ---------------------------------------------------------------------------
  // What the operations leave in the file

  /** `writeHeader` on the empty file that `fopen(.., "wb")` gives: the file is exactly the header image. */
  lemma WriteHeaderOnEmpty(v: Header.HeaderValue)
    requires Header.WellFormed(v)
    ensures WriteHeaderAt(Opened([]), v).bytes == Header.Image(v)
    ensures WriteHeaderAt(Opened([]), v).pos == 4 + Header.BlockSize
  {
    var f := Opened([]);
    assert SeekSet(f, 0) == f;
    FwriteAppends(f, U32(Header.Magic));
    var f1 := Fwrite(f, U32(Header.Magic)).0;
    assert f1.bytes == U32(Header.Magic) && f1.pos == 4;
    FwriteAppends(f1, Header.Block(v));
    assert Fwrite(f1, Header.Block(v)).0.bytes == Header.Image(v);
  }

  /**
   * `writeHeader` over a file that already starts with that header changes
   * no byte: it only moves the cursor back to the end.
   */
  lemma WriteHeaderAgain(f: FileState, v: Header.HeaderValue)
    requires Header.WellFormed(v) && f.pos <= |f.bytes|
    requires 4 + Header.BlockSize <= |f.bytes| && f.bytes[..4 + Header.BlockSize] == Header.Image(v)
    ensures WriteHeaderAt(f, v) == f.(pos := |f.bytes|, eof := false)
  {
    var f0 := SeekSet(f, 0);
    assert At(f0, U32(Header.Magic) + Header.Block(v));
    AtSplit(f0, U32(Header.Magic), Header.Block(v));
    FwriteSameBytes(f0, U32(Header.Magic));
    var f1 := Fwrite(f0, U32(Header.Magic)).0;
    assert f1 == f0.(pos := 4);
    FwriteSameBytes(f1, Header.Block(v));
  }

  /** `write(ctx, ebf)` at the end of the file appends the context image and the payload image. */
  lemma WriteCommonAppends(f: FileState, ctx: Context.LseContext, p: Bytes)
    requires 0 < |p| <= Ebf.Capacity && f.pos == |f.bytes|
    ensures WriteCommon(f, ctx, p).1 == Pass
    ensures WriteCommon(f, ctx, p).0 == f.(bytes := f.bytes + (Context.Image(ctx) + Ebf.Image(p)), pos := |f.bytes| + Context.ContextSize + 4 + |p|)
  {
    var c := Context.Image(ctx);
    FwriteAppends(f, c);
    var f1 := f.(bytes := f.bytes + c, pos := |f.bytes| + |c|);
    Ebf.WriteBlobAppends(f1, p);
    assert f.bytes + c + Ebf.Image(p) == f.bytes + (c + Ebf.Image(p));
  }

  /**
   * An empty payload makes `EBF_Data::write` throw after its length word:
   * the context and a zero length are left behind the last record.
   */
  lemma WriteCommonEmptyPayload(f: FileState, ctx: Context.LseContext)
    requires f.pos == |f.bytes|
    ensures WriteCommon(f, ctx, []).1 == Throw(ShortWrite)
    ensures WriteCommon(f, ctx, []).0.bytes == f.bytes + (Context.Image(ctx) + U32(0))
  {
    var c := Context.Image(ctx);
    FwriteAppends(f, c);
    var f1 := f.(bytes := f.bytes + c, pos := |f.bytes| + |c|);
    FwriteAppends(f1, U32(0));
    assert f.bytes + c + U32(0) == f.bytes + (c + U32(0));
  }

  /** `write(itype, buf, len)` at the end of the file appends the tagged block. */
  lemma WriteBlockAppends(f: FileState, tag: int32, body: Bytes)
    requires 0 < |body| < 0x1_0000_0000_0000_0000 && f.pos == |f.bytes|
    ensures WriteBlock(f, tag, body).1 == Pass
    ensures WriteBlock(f, tag, body).0 == f.(bytes := f.bytes + Record.BlockImage(tag, body), pos := |f.bytes| + 12 + |body|)
  {
    var t, l := I32(tag), U64(|body|);
    FwriteAppends(f, t);
    var f1 := f.(bytes := f.bytes + t, pos := |f.bytes| + 4);
    FwriteAppends(f1, l);
    var f2 := f1.(bytes := f1.bytes + l, pos := |f.bytes| + 12);
    FwriteAppends(f2, body);
    assert f.bytes + t + l + body == f.bytes + (t + (l + body));
  }

  /** A typed `write` once its common part has been written: the info block follows. */
  lemma WriteTypedThen(f: FileState, ctx: Context.LseContext, p: Bytes, v: Record.InfoValue, f1: FileState)
    requires |p| <= Ebf.Capacity && f.pos <= |f.bytes|
    requires WriteCommon(f, ctx, p).0 == f1 && WriteCommon(f, ctx, p).1 == Pass
    ensures WriteTyped(f, ctx, p, v).0 == WriteBlock(f1, Record.InfoTag(v), Record.InfoBody(v)).0
    ensures WriteTyped(f, ctx, p, v).1 == WriteBlock(f1, Record.InfoTag(v), Record.InfoBody(v)).1
  {
  }

  /** The four-argument `write` once its typed record has been written: the keys block follows. */
  lemma WriteKeyedThen(f: FileState, ctx: Context.LseContext, p: Bytes, v: Record.InfoValue, k: Record.KeysValue, f1: FileState)
    requires |p| <= Ebf.Capacity && f.pos <= |f.bytes|
    requires WriteTyped(f, ctx, p, v).0 == f1 && WriteTyped(f, ctx, p, v).1 == Pass
    ensures WriteKeyed(f, ctx, p, v, k).0 == WriteBlock(f1, Record.KeysTag(k), Record.KeysBody(k)).0
    ensures WriteKeyed(f, ctx, p, v, k).1 == WriteBlock(f1, Record.KeysTag(k), Record.KeysBody(k)).1
  {
  }

  /** Appending two parts in turn appends their concatenation. */
  lemma AppendTwice(s: Bytes, a: Bytes, b: Bytes, ab: Bytes)
    requires ab == a + b
    ensures s + a + b == s + ab
  {
  }

  /** A typed `write` at the end of the file appends the whole record. */
  lemma WriteTypedAppends(f: FileState, ctx: Context.LseContext, p: Bytes, v: Record.InfoValue)
    requires 0 < |p| <= Ebf.Capacity && f.pos == |f.bytes|
    ensures WriteTyped(f, ctx, p, v).1 == Pass
    ensures WriteTyped(f, ctx, p, v).0 == f.(bytes := f.bytes + Record.RecordImage(ctx, p, v), pos := |f.bytes| + |Record.RecordImage(ctx, p, v)|)
  {
    var common := Context.Image(ctx) + Ebf.Image(p);
    var tag, body := Record.InfoTag(v), Record.InfoBody(v);
    WriteCommonAppends(f, ctx, p);
    var f1 := f.(bytes := f.bytes + common, pos := |f.bytes| + |common|);
    WriteBlockAppends(f1, tag, body);
    WriteTypedThen(f, ctx, p, v, f1);
    Record.RecordImageParts(ctx, p, v);
    AppendTwice(f.bytes, common, Record.BlockImage(tag, body), Record.RecordImage(ctx, p, v));
  }

  /** The four-argument `write` at the end of the file appends the record and its keys block. */
  lemma WriteKeyedAppends(f: FileState, ctx: Context.LseContext, p: Bytes, v: Record.InfoValue, k: Record.KeysValue)
    requires 0 < |p| <= Ebf.Capacity && f.pos == |f.bytes|
    ensures WriteKeyed(f, ctx, p, v, k).1 == Pass
    ensures WriteKeyed(f, ctx, p, v, k).0 == f.(bytes := f.bytes + Record.KeyedImage(ctx, p, v, k), pos := |f.bytes| + |Record.KeyedImage(ctx, p, v, k)|)
  {
    var rec := Record.RecordImage(ctx, p, v);
    var tag, body := Record.KeysTag(k), Record.KeysBody(k);
    WriteTypedAppends(f, ctx, p, v);
    var f1 := f.(bytes := f.bytes + rec, pos := |f.bytes| + |rec|);
    WriteBlockAppends(f1, tag, body);
    WriteKeyedThen(f, ctx, p, v, k, f1);
    AppendTwice(f.bytes, rec, Record.BlockImage(tag, body), Record.KeyedImage(ctx, p, v, k));
  }

  /** A typed `write` whose payload is empty throws, having appended only the common part. */
  lemma WriteTypedEmptyPayload(f: FileState, ctx: Context.LseContext, v: Record.InfoValue, k: Record.KeysValue)
    requires f.pos == |f.bytes|
    ensures WriteTyped(f, ctx, [], v).1 == Throw(ShortWrite) && WriteKeyed(f, ctx, [], v, k).1 == Throw(ShortWrite)
    ensures WriteTyped(f, ctx, [], v).0.bytes == f.bytes + (Context.Image(ctx) + U32(0))
    ensures WriteKeyed(f, ctx, [], v, k).0 == WriteTyped(f, ctx, [], v).0
  {
    WriteCommonEmptyPayload(f, ctx);
  }

  /** `g` is `f` with bytes appended, and its cursor is at its end. */
  ghost predicate Extends(f: FileState, g: FileState)
  {
    |f.bytes| <= |g.bytes| && g.bytes[..|f.bytes|] == f.bytes && g.pos == |g.bytes| && g.eof == f.eof
  }

  lemma ExtendsTrans(f: FileState, g: FileState, h: FileState)
    requires Extends(f, g) && Extends(g, h)
    ensures Extends(f, h)
  {
    assert h.bytes[..|f.bytes|] == h.bytes[..|g.bytes|][..|f.bytes|];
  }

  /** Appending keeps every prefix of the file, the header among them. */
  lemma ExtendsKeeps(f: FileState, g: FileState, n: nat)
    requires Extends(f, g) && n <= |f.bytes|
    ensures g.bytes[..n] == f.bytes[..n]
  {
    assert g.bytes[..n] == g.bytes[..|f.bytes|][..n];
  }

  /** Whatever a typed `write` does at the end of the file, it only appends. */
  lemma WriteTypedExtends(f: FileState, ctx: Context.LseContext, p: Bytes, v: Record.InfoValue)
    requires |p| <= Ebf.Capacity && f.pos == |f.bytes|
    ensures Extends(f, WriteTyped(f, ctx, p, v).0)
  {
    if |p| == 0 {
      WriteCommonEmptyPayload(f, ctx);
      FwriteAppends(f, Context.Image(ctx));
      FwriteAppends(f.(bytes := f.bytes + Context.Image(ctx), pos := |f.bytes| + Context.ContextSize), U32(0));
      assert (f.bytes + (Context.Image(ctx) + U32(0)))[..|f.bytes|] == f.bytes;
    } else {
      WriteTypedAppends(f, ctx, p, v);
      assert (f.bytes + Record.RecordImage(ctx, p, v))[..|f.bytes|] == f.bytes;
    }
  }

  /** Whatever the four-argument `write` does at the end of the file, it only appends. */
  lemma WriteKeyedExtends(f: FileState, ctx: Context.LseContext, p: Bytes, v: Record.InfoValue, k: Record.KeysValue)
    requires |p| <= Ebf.Capacity && f.pos == |f.bytes|
    ensures Extends(f, WriteKeyed(f, ctx, p, v, k).0)
  {
    WriteTypedExtends(f, ctx, p, v);
    var t := WriteTyped(f, ctx, p, v);
    if t.1.Pass? {
      var b := Record.BlockImage(Record.KeysTag(k), Record.KeysBody(k));
      WriteKeyedThen(f, ctx, p, v, k, t.0);
      WriteBlockAppends(t.0, Record.KeysTag(k), Record.KeysBody(k));
      assert (t.0.bytes + b)[..|t.0.bytes|] == t.0.bytes;
      ExtendsTrans(f, t.0, WriteKeyed(f, ctx, p, v, k).0);
    }
  }

  // ---------------------------------------------------------------------------
  // The writer object

  class LseWriter {
    const name: string
    const hdr: Header.LseHeader
    var file: FileState
    var isOpen: bool

    /**
     * The header holds the run id and zero everywhere else, and the file is
     * that header's image followed by the records, with the cursor at its end.
     */
    ghost predicate Valid()
      reads this, hdr, hdr.Repr()
    {
      hdr.Valid() && hdr.Value() == Header.Zero().(runid := hdr.runid) &&
      4 + Header.BlockSize <= |file.bytes| && file.bytes[..4 + Header.BlockSize] == Header.Image(hdr.Value()) &&
      file.pos == |file.bytes| && !file.eof
    }

    /** The constructor: a new, empty file, the run id stored in the header, the header written at once. */
    constructor (name: string, runid: u32)
      ensures Valid() && isOpen && this.name == name && hdr.runid == runid && fresh(hdr.Repr())
      ensures file.bytes == Header.Image(Header.Zero().(runid := runid))
    {
      this.name := name;
      var h := new Header.LseHeader();
      h.runid := runid;
      hdr := h;
      file := Opened([]);
      isOpen := true;
      new;
      WriteHeader();
      WriteHeaderOnEmpty(hdr.Value());
    }

    /** `writeHeader`: the header at offset 0, the cursor back at the end of the file. */
    method WriteHeader()
      requires hdr.Valid() && file.pos <= |file.bytes|
      modifies this
      ensures file == WriteHeaderAt(old(file), hdr.Value()) && isOpen == old(isOpen)
    {
      var g := hdr.Write(SeekSet(file, 0));
      file := SeekEnd(g);
    }

    /** `close`: the header is written again and the file released, once; a second call does nothing. */
    method Close()
      requires Valid()
      modifies this
      ensures Valid() && !isOpen && file == old(file)
    {
      if isOpen {
        WriteHeaderAgain(file, hdr.Value());
        WriteHeader();
        isOpen := false;
      }
    }

    /** A typed `write`; on a throw the bytes already written stay in the file. */
    method Write(ctx: Context.LseContext, ebf: Ebf.EbfData, v: Record.InfoValue) returns (out: Outcome)
      requires Valid() && isOpen && ebf.Valid()
      modifies this
      ensures Valid() && isOpen
      ensures file == WriteTyped(old(file), ctx, ebf.Payload(), v).0 && out == WriteTyped(old(file), ctx, ebf.Payload(), v).1
    {
      ghost var f0 := file;
      ghost var p := ebf.Payload();
      var common := Fwrite(file, Context.Image(ctx));
      file := common.0;
      out := Pass;
      if !common.1 {
        out := Throw(ShortWrite);
      } else {
        var g;
        g, out := ebf.Write(file);
        file := g;
        if out.Pass? {
          out := WriteBlockHere(Record.InfoTag(v), Record.InfoBody(v));
        }
      }
      WriteTypedExtends(f0, ctx, p, v);
      ExtendsKeeps(f0, file, 4 + Header.BlockSize);
    }

    /** The four-argument `write` of the merge tool: the typed record, then the keys block. */
    method WriteWithKeys(ctx: Context.LseContext, ebf: Ebf.EbfData, v: Record.InfoValue, k: Record.KeysValue) returns (out: Outcome)
      requires Valid() && isOpen && ebf.Valid()
      modifies this
      ensures Valid() && isOpen
      ensures file == WriteKeyed(old(file), ctx, ebf.Payload(), v, k).0 && out == WriteKeyed(old(file), ctx, ebf.Payload(), v, k).1
    {
      ghost var f0 := file;
      out := Write(ctx, ebf, v);
      if out.Pass? {
        out := WriteBlockHere(Record.KeysTag(k), Record.KeysBody(k));
      }
      WriteKeyedExtends(f0, ctx, ebf.Payload(), v, k);
      ExtendsKeeps(f0, file, 4 + Header.BlockSize);
    }

    /** `write(itype, buf, len)` at the cursor. */
    method WriteBlockHere(tag: int32, body: Bytes) returns (out: Outcome)
      requires |body| < 0x1_0000_0000_0000_0000 && file.pos <= |file.bytes|
      modifies this
      ensures file == WriteBlock(old(file), tag, body).0 && out == WriteBlock(old(file), tag, body).1
      ensures isOpen == old(isOpen)
    {
      var w1 := Fwrite(file, I32(tag));
      file := w1.0;
      if !w1.1 {
        return Throw(ShortWrite);
      }
      var w2 := Fwrite(file, U64(|body|));
      file := w2.0;
      if !w2.1 {
        return Throw(ShortWrite);
      }
      var w3 := Fwrite(file, body);
      file := w3.0;
      if !w3.1 {
        return Throw(ShortWrite);
      }
      out := Pass;
    }
  }
}
