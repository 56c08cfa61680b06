/**
 * The C library's FILE stream, as the eventFile classes use it: a byte file,
 * a cursor, and the end-of-file indicator that `feof` reports.  Every read and
 * write in the codec asks for exactly one item of `n` bytes, so `fread` and
 * `fwrite` return 1 or 0 and are modelled as succeeding or not.
 */
module Stdio {
  import opened Base
  import opened Codec

  datatype FileState = FileState(bytes: Bytes, pos: nat, eof: bool)

  /** A freshly opened stream: cursor at 0, indicator clear. */
  function Opened(contents: Bytes): (f: FileState)
    ensures f.bytes == contents && f.pos == 0 && !f.eof
  {
    FileState(contents, 0, false)
  }

  /** `img` lies in the file at the cursor. */
  ghost predicate At(f: FileState, img: Bytes)
  {
    f.pos + |img| <= |f.bytes| && f.bytes[f.pos..f.pos + |img|] == img
  }

  /**
   * `fread(buf, n, 1, fp)`: one item of `n` bytes, or none.  A request for
   * zero bytes returns 0 items without touching the stream; a request that
   * runs past the end consumes what is left and sets the indicator.
   */
  function Fread(f: FileState, n: nat): (r: (FileState, Option<Bytes>))
    ensures r.0.bytes == f.bytes
    ensures r.1.Some? <==> 0 < n && f.pos + n <= |f.bytes|
    ensures r.1.Some? ==> |r.1.value| == n && r.0.pos == f.pos + n && r.0.eof == f.eof
    ensures r.1.None? && 0 < n ==> r.0.eof && r.0.pos >= |f.bytes|
  {
    if n == 0 then (f, None)
    else if f.pos + n <= |f.bytes| then (f.(pos := f.pos + n), Some(f.bytes[f.pos..f.pos + n]))
    else (f.(pos := if f.pos < |f.bytes| then |f.bytes| else f.pos, eof := true), None)
  }

  /** The file after `data` overwrites the bytes at `at` (and extends it if needed). */
  function Splice(s: Bytes, at: nat, data: Bytes): (r: Bytes)
    requires at <= |s|
    ensures |r| == if at + |data| <= |s| then |s| else at + |data|
  {
    s[..at] + data + (if at + |data| <= |s| then s[at + |data|..] else [])
  }

  /** `fwrite(buf, n, 1, fp)`: writes the item at the cursor; zero bytes write 0 items. */
  function Fwrite(f: FileState, data: Bytes): (r: (FileState, bool))
    requires f.pos <= |f.bytes|
    ensures r.1 <==> |data| > 0
    ensures r.0.pos <= |r.0.bytes| && r.0.eof == f.eof
    ensures r.1 ==> r.0.pos == f.pos + |data|
    ensures !r.1 ==> r.0 == f
  {
    if |data| == 0 then (f, false)
    else if f.pos == |f.bytes| then (f.(bytes := f.bytes + data, pos := f.pos + |data|), true)
    else (f.(bytes := Splice(f.bytes, f.pos, data), pos := f.pos + |data|), true)
  }

  /** What `Splice` leaves in place: the bytes before `at`, then `data`, then the rest if the file was longer. */
  lemma SpliceParts(s: Bytes, at: nat, data: Bytes)
    requires at <= |s|
    ensures Splice(s, at, data)[..at] == s[..at]
    ensures Splice(s, at, data)[at..at + |data|] == data
    ensures at + |data| <= |s| ==> Splice(s, at, data)[at + |data|..] == s[at + |data|..]
  {
    var r := Splice(s, at, data);
    var tail := if at + |data| <= |s| then s[at + |data|..] else [];
    assert r == s[..at] + data + tail;
    assert r[..at] == s[..at];
    assert r[at..at + |data|] == data;
  }

  /** After a successful write the data lies where the cursor was. */
  lemma FwriteAt(f: FileState, data: Bytes)
    requires f.pos <= |f.bytes| && |data| > 0
    ensures At(f.(bytes := Fwrite(f, data).0.bytes), data)
  {
    if f.pos < |f.bytes| {
      SpliceParts(f.bytes, f.pos, data);
    } else {
      assert (f.bytes + data)[f.pos..f.pos + |data|] == data;
    }
  }

  /** A write leaves every byte before the cursor as it was. */
  lemma FwriteKeepsPrefix(f: FileState, data: Bytes)
    requires f.pos <= |f.bytes|
    ensures f.pos <= |Fwrite(f, data).0.bytes|
    ensures Fwrite(f, data).0.bytes[..f.pos] == f.bytes[..f.pos]
  {
    if |data| > 0 {
      if f.pos < |f.bytes| {
        SpliceParts(f.bytes, f.pos, data);
      } else {
        assert (f.bytes + data)[..f.pos] == f.bytes;
      }
    }
  }

  /** Two writes in a row lay down the concatenation of their data at the first cursor. */
  lemma FwriteTwice(f: FileState, a: Bytes, b: Bytes)
    requires f.pos <= |f.bytes| && |a| > 0 && |b| > 0
    ensures Fwrite(Fwrite(f, a).0, b).0.pos == f.pos + |a| + |b|
    ensures At(f.(bytes := Fwrite(Fwrite(f, a).0, b).0.bytes), a + b)
  {
    var f1 := Fwrite(f, a).0;
    var g := Fwrite(f1, b).0;
    FwriteAt(f, a);
    FwriteAt(f1, b);
    FwriteKeepsPrefix(f1, b);
    var p := f.pos;
    var q := f1.pos;
    assert g.bytes[p..q] == g.bytes[..q][p..];
    assert f1.bytes[p..q] == f1.bytes[..q][p..];
    assert g.bytes[p..q + |b|] == g.bytes[p..q] + g.bytes[q..q + |b|];
  }

  /** `fseeko(fp, off, SEEK_SET)`: moves the cursor and clears the indicator. */
  function SeekSet(f: FileState, off: nat): (r: FileState)
    ensures r.bytes == f.bytes && r.pos == off && !r.eof
  {
    f.(pos := off, eof := false)
  }

  /** `fseeko(fp, 0, SEEK_END)`. */
  function SeekEnd(f: FileState): (r: FileState)
    ensures r.bytes == f.bytes && r.pos == |f.bytes| && !r.eof
  {
    f.(pos := |f.bytes|, eof := false)
  }

  /** Reading the bytes that lie at the cursor returns exactly them. */
  lemma FreadAt(f: FileState, img: Bytes)
    requires |img| > 0 && At(f, img)
    ensures Fread(f, |img|).0 == f.(pos := f.pos + |img|)
    ensures Fread(f, |img|).1 == Some(img)
  {
  }

  /** Writing at the end of the file appends. */
  lemma FwriteAppends(f: FileState, data: Bytes)
    requires f.pos == |f.bytes| && |data| > 0
    ensures Fwrite(f, data).0 == f.(bytes := f.bytes + data, pos := |f.bytes| + |data|)
    ensures Fwrite(f, data).1
  {
  }

  /** Writing over bytes that already hold the same data leaves the file as it was. */
  lemma FwriteSameBytes(f: FileState, data: Bytes)
    requires |data| > 0 && At(f, data)
    ensures Fwrite(f, data).0.bytes == f.bytes
  {
    var s := f.bytes;
    var r := Splice(s, f.pos, data);
    assert |r| == |s|;
    forall i | 0 <= i < |s| ensures r[i] == s[i] {
      if i < f.pos {
        assert r[i] == r[..f.pos][i];
      } else if i < f.pos + |data| {
        assert r[i] == r[f.pos..f.pos + |data|][i - f.pos];
        assert s[i] == s[f.pos..f.pos + |data|][i - f.pos];
      } else {
        assert r[i] == r[f.pos + |data|..][i - f.pos - |data|];
      }
    }
  }

  /** A composite image lies at the cursor iff its two parts lie there in turn. */
  lemma AtSplit(f: FileState, a: Bytes, b: Bytes)
    requires At(f, a + b)
    ensures At(f, a) && At(f.(pos := f.pos + |a|), b)
  {
    var s := f.bytes[f.pos..f.pos + |a| + |b|];
    assert s[..|a|] == a;
    assert s[|a|..] == b;
    assert f.bytes[f.pos..f.pos + |a|] == s[..|a|];
    assert f.bytes[f.pos + |a|..f.pos + |a| + |b|] == s[|a|..];
  }

  /** An image appended at the end of a file lies at the old end. */
  lemma AtAppended(s: Bytes, img: Bytes, rest: Bytes, e: bool)
    ensures At(FileState(s + img + rest, |s|, e), img)
  {
    assert (s + img + rest)[|s|..|s| + |img|] == img;
  }
}
