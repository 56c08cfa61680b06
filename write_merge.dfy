/**
 * writeMerge: copies the events an index file lists out of their chunk
 * files into merged LSE files.  Each `EVT:` line names a chunk file and an
 * offset; the record there is read with a reader kept open per chunk file
 * and written to the current output file, which is closed and replaced
 * once it holds as many events as the current threshold allows.
 */
module Merge {
  import opened Base
  import opened Codec
  import opened Stdio
  import Header
  import Info
  import Ebf
  import Record
  import Reader
  import Writer
  import Session
  import EvtIndex

  /** The command line and environment once converted. */
  datatype Config = Config(
    downlinkId: u32,                 // the run id of every output file
    maxEvents: int,                  // events per output file; -1 when not given
    scale: real,                     // WRITEMERGE_CHUNKSCALE, 0.90 unless set
    floor: real,                     // WRITEMERGE_CHUNKFLOOR, 0.50 unless set
    overrideLatc: u64,               // the LATC master key to force, 0xffffffff for none
    nameOf: (u32, u64) -> string)    // the output-name template applied to startedAt and sequence

  const NoOverride: nat := 0xffff_ffff

  // ---------------------------------------------------------------------------
  // The rotation rule

  /** The conversion of a floating value to `int`: the fraction is dropped, toward zero. */
  function Trunc(x: real): (n: int)
    ensures 0.0 <= x ==> 0 <= n && n as real <= x < n as real + 1.0
    ensures x < 0.0 ==> n <= 0 && n as real - 1.0 < x <= n as real
  {
    if 0.0 <= x then x.Floor else -((-x).Floor)
  }

  function Max(a: int, b: int): int
  {
    if a < b then b else a
  }

  /** An output file is full once the event just written brings the count to the threshold. */
  predicate Rotates(currMax: int, eventsOut: int): (r: bool)
    ensures currMax <= 0 ==> !r
    ensures 0 < currMax == eventsOut + 1 ==> r
  {
    currMax > 0 && eventsOut + 1 >= currMax
  }

  /**
   * The next threshold as written: back to the maximum once the current one
   * is at or below the floor fraction of it, else the current one scaled
   * and truncated.
   */
  function NextMaxAsWritten(currMax: int, maxEvents: int, scale: real, floor: real): (r: int)
    ensures currMax as real <= floor * maxEvents as real ==> r == maxEvents
    ensures 0.0 <= scale <= 1.0 && 0 <= currMax && floor * maxEvents as real < currMax as real ==> 0 <= r <= currMax
  {
    if currMax as real <= floor * maxEvents as real then maxEvents else Trunc(scale * currMax as real)
  }

  /** The same rule with the scaled threshold kept at one event or more. */
  function NextMax(currMax: int, maxEvents: int, scale: real, floor: real): (r: int)
    ensures r == maxEvents || 1 <= r
    ensures 0.0 <= scale <= 1.0 && 1 <= currMax && floor * maxEvents as real < currMax as real ==> 1 <= r <= currMax
  {
    if currMax as real <= floor * maxEvents as real then maxEvents else Max(1, Trunc(scale * currMax as real))
  }

  /**
   * With one event per file and the default scale and floor, the rule as
   * written sets the threshold to 0 after the first file, and a threshold
   * of 0 never rotates again.
   */
  lemma NextMaxAsWrittenStalls()
    ensures NextMaxAsWritten(1, 1, 0.9, 0.5) == 0
    ensures forall n: int {:trigger Rotates(0, n)} :: !Rotates(0, n)
  {
    assert 0.9 * 1 as real == 0.9;
  }

  /** The corrected rule differs from the written one only where that one falls below one event. */
  lemma NextMaxClamps(currMax: int, maxEvents: int, scale: real, floor: real)
    requires maxEvents >= 1
    ensures NextMax(currMax, maxEvents, scale, floor) == Max(1, NextMaxAsWritten(currMax, maxEvents, scale, floor))
  { }

  /** With a scale of at most one the threshold stays between one event and the maximum. */
  lemma NextMaxInRange(currMax: int, maxEvents: int, scale: real, floor: real)
    requires 1 <= currMax <= maxEvents && 0.0 <= scale <= 1.0 && 0.0 <= floor
    ensures 1 <= NextMax(currMax, maxEvents, scale, floor) <= maxEvents
  {
    if !(currMax as real <= floor * maxEvents as real) {
      assert scale * currMax as real <= currMax as real;
    }
  }

  /** Above the floor, a scale below one makes each threshold smaller than the one before, down to one. */
  lemma NextMaxShrinks(currMax: int, maxEvents: int, scale: real, floor: real)
    requires 1 <= currMax && 0.0 <= scale < 1.0 && floor * maxEvents as real < currMax as real
    ensures NextMax(currMax, maxEvents, scale, floor) < currMax || NextMax(currMax, maxEvents, scale, floor) == currMax == 1
  {
    var c := currMax as real;
    var t := scale * c;
    assert 0.0 <= t by {
      assert 0.0 <= scale && 0.0 < c;
    }
    assert t < c by {
      var d := 1.0 - scale;
      assert 0.0 < d && 0.0 < c;
      assert 0.0 < d * c;
      assert c - t == d * c;
    }
    assert Trunc(t) == t.Floor;
    assert Trunc(t) < currMax;
  }

  // ---------------------------------------------------------------------------
  // One index entry

  /** A `seek` to `ofst` in a chunk file, then the ten-argument `read`, which must find a record there. */
  function ReadAt(b: Bytes, ofst: nat, o: Reader.Outs): (r: Result<Reader.Got>)
    ensures r.Ok? ==> 0 < |r.value.payload| <= Ebf.Capacity
  {
    var r := Reader.ReadKeyed(FileState(b, ofst, false), o);
    if r.1.Fail? then Fail(r.1.error)
    else if r.1.value.None? then Fail(MissingRecord)
    else Ok(r.1.value.value)
  }

  /**
   * The record an index entry points at: the chunk file must open and its
   * header must read (`Reader.HeaderErrorIsRead`), and a `seek` to the
   * offset and the ten-argument `read` must find a record there.
   */
  function Fetch(fs: map<string, Bytes>, x: EvtIndex.EvtIdx, o: Reader.Outs): (r: Result<Reader.Got>)
    ensures r.Ok? ==> 0 < |r.value.payload| <= Ebf.Capacity
    ensures x.evtfile !in fs ==> r == Fail(OpenError)
  {
    if x.evtfile !in fs then Fail(OpenError)
    else
      var h := Reader.HeaderError(fs[x.evtfile]);
      if h.Some? then Fail(h.value) else ReadAt(fs[x.evtfile], x.fileofst, o)
  }

  /**
   * The LATC override: an LPA record's master key takes the override,
   * truncated to the key's 32 bits, unless the override is 0xffffffff;
   * nothing else changes.
   */
  function Overridden(cfg: Config, o: Reader.Outs): (r: Reader.Outs)
    ensures r.(pakeys := o.pakeys) == o && r.pakeys.(latcMaster := o.pakeys.latcMaster) == o.pakeys
    ensures r != o ==> o.itype == Info.Lpa && cfg.overrideLatc != NoOverride
    ensures o.itype == Info.Lpa && cfg.overrideLatc != NoOverride ==> r.pakeys.latcMaster == cfg.overrideLatc % 0x1_0000_0000
  {
    if o.itype == Info.Lpa && cfg.overrideLatc != NoOverride then
      o.(pakeys := o.pakeys.(latcMaster := cfg.overrideLatc % 0x1_0000_0000))
    else o
  }

  /**
   * The `switch` on the info type: the record is written with the info of
   * the type it was read with, LPA keys for an LPA record and LCI keys for
   * the others; any other type is an error.
   */
  function ToEntry(o: Reader.Outs, p: Bytes): (r: Result<Session.Entry>)
    ensures r.Ok? <==> Info.Lpa <= o.itype <= Info.LciTkr
    ensures r.Fail? ==> r.error == UnknownInfoType
    ensures r.Ok? ==> r.value.ctx == o.ctx && r.value.payload == p && Record.InfoTag(r.value.info) == o.itype
    ensures r.Ok? ==> r.value.keys == if o.itype == Info.Lpa then Record.LpaKeysValue(o.pakeys) else Record.LciKeysValue(o.cikeys)
  {
    if o.itype == Info.Lpa then Ok(Session.Entry(o.ctx, p, Record.LpaValue(o.pinfo), Record.LpaKeysValue(o.pakeys)))
    else if o.itype == Info.LciAcd then Ok(Session.Entry(o.ctx, p, Record.AcdValue(o.ainfo), Record.LciKeysValue(o.cikeys)))
    else if o.itype == Info.LciCal then Ok(Session.Entry(o.ctx, p, Record.CalValue(o.cinfo), Record.LciKeysValue(o.cikeys)))
    else if o.itype == Info.LciTkr then Ok(Session.Entry(o.ctx, p, Record.TkrValue(o.tinfo), Record.LciKeysValue(o.cikeys)))
    else Fail(UnknownInfoType)
  }

  // ---------------------------------------------------------------------------
  // The main loop as a function of the index lines

  /** An output file: its name, the records written to it, and the file itself. */
  datatype Output = Output(name: string, entries: seq<Session.Entry>, file: FileState)

  /** The loop's variables: the read out-parameters, the open output, the counter, the threshold, the closed outputs. */
  datatype MState = MState(o: Reader.Outs, cur: Option<Output>, eventsOut: int, currMax: int, done: seq<Output>)

  ghost predicate WellFormed(st: MState)
  {
    st.cur.Some? ==> st.cur.value.file.pos <= |st.cur.value.file.bytes|
  }

  /** What a new LSEWriter holds: the header for the run id, the cursor at its end. */
  function HeaderFile(runid: u32): (f: FileState)
    ensures f.pos == |f.bytes| && !f.eof
  {
    var b := Header.Image(Header.Zero().(runid := runid));
    FileState(b, |b|, false)
  }

  /** The output opened for a record: named from the record's own start time and sequence number. */
  function NewOutput(cfg: Config, o: Reader.Outs): (out: Output)
    ensures out.name == cfg.nameOf(o.ctx.run.startedAt, o.ctx.scalers.sequence) && out.entries == []
    ensures out.file.bytes == Header.Image(Header.Zero().(runid := cfg.downlinkId))
    ensures out.file.pos == |out.file.bytes| && !out.file.eof
  {
    Output(cfg.nameOf(o.ctx.run.startedAt, o.ctx.scalers.sequence), [], HeaderFile(cfg.downlinkId))
  }

  /** After a record is written to `out`: either `out` is full and closed, or it stays open. */
  function Commit(cfg: Config, st: MState, o: Reader.Outs, out: Output): (r: MState)
    ensures out.file.pos <= |out.file.bytes| ==> WellFormed(r)
  {
    if Rotates(st.currMax, st.eventsOut) then
      MState(o, None, 0, NextMax(st.currMax, cfg.maxEvents, cfg.scale, cfg.floor), st.done + [out])
    else
      MState(o, Some(out), if st.currMax > 0 then st.eventsOut + 1 else st.eventsOut, st.currMax, st.done)
  }

  /** The four-argument `write` of one record onto an output; a failed write is an error. */
  function Put(out: Output, e: Session.Entry): (r: Result<Output>)
    requires out.file.pos <= |out.file.bytes| && |e.payload| <= Ebf.Capacity
    ensures r.Ok? ==> r.value.name == out.name && r.value.entries == out.entries + [e]
    ensures r.Ok? ==> r.value.file.pos <= |r.value.file.bytes|
  {
    var w := Writer.WriteKeyed(out.file, e.ctx, e.payload, e.info, e.keys);
    if w.1.Throw? then Fail(w.1.error) else Ok(Output(out.name, out.entries + [e], w.0))
  }

  /** A record once read: open an output if none is open, apply the override, write, then count. */
  function Apply(cfg: Config, st: MState, g: Reader.Got): (r: Result<MState>)
    requires WellFormed(st) && |g.payload| <= Ebf.Capacity
    ensures r.Ok? ==> WellFormed(r.value)
  {
    var cur := if st.cur.Some? then st.cur.value else NewOutput(cfg, g.outs);
    var o := Overridden(cfg, g.outs);
    var e := ToEntry(o, g.payload);
    if e.Fail? then Fail(e.error)
    else
      var w := Put(cur, e.value);
      if w.Fail? then Fail(w.error) else Ok(Commit(cfg, st, o, w.value))
  }

  /** One index entry: fetch the record it points at, then apply it. */
  function Event(cfg: Config, fs: map<string, Bytes>, st: MState, x: EvtIndex.EvtIdx): (r: Result<MState>)
    requires WellFormed(st)
    ensures r.Ok? ==> WellFormed(r.value)
  {
    var g := Fetch(fs, x, st.o);
    if g.Fail? then Fail(g.error) else Apply(cfg, st, g.value)
  }

  /** One index line: anything but an event line is skipped; an event line must parse. */
  function Step(cfg: Config, fs: map<string, Bytes>, st: MState, line: string): (r: Result<MState>)
    requires WellFormed(st)
    ensures r.Ok? ==> WellFormed(r.value)
  {
    if !EvtIndex.IsEventLine(line) then Ok(st)
    else
      var x := EvtIndex.Parse(line);
      if x.None? then Fail(BadIndexLine) else Event(cfg, fs, st, x.value)
  }

  /** The lines one after another, from the loop's starting state; the first failure ends the run. */
  function Run(cfg: Config, fs: map<string, Bytes>, st0: MState, lines: seq<string>): (r: Result<MState>)
    requires WellFormed(st0)
    ensures r.Ok? ==> WellFormed(r.value)
    decreases |lines|
  {
    if |lines| == 0 then Ok(st0)
    else
      var r := Run(cfg, fs, st0, lines[..|lines| - 1]);
      if r.Fail? then r
      else
        Step(cfg, fs, r.value, lines[|lines| - 1])
  }

  /** Before the first line: no output, no count, the threshold at the maximum. */
  function Start(cfg: Config, o0: Reader.Outs): (st: MState)
    ensures st.o == o0 && Outputs(st) == [] && Inv(cfg, st)
  {
    MState(o0, None, 0, cfg.maxEvents, [])
  }

  /** The outputs in the order they were opened, the one still open last. */
  function Outputs(st: MState): seq<Output>
  {
    st.done + (if st.cur.Some? then [st.cur.value] else [])
  }

  /** A file on disk once the merge is over. */
  datatype OutFile = OutFile(name: string, bytes: Bytes)

  function Files(outs: seq<Output>): (r: seq<OutFile>)
    ensures |r| == |outs| && forall i :: 0 <= i < |outs| ==> r[i] == OutFile(outs[i].name, outs[i].file.bytes)
  {
    seq(|outs|, i requires 0 <= i < |outs| => OutFile(outs[i].name, outs[i].file.bytes))
  }

  lemma FilesSnoc(outs: seq<Output>, out: Output)
    ensures Files(outs + [out]) == Files(outs) + [OutFile(out.name, out.file.bytes)]
  {
    var a, b := Files(outs + [out]), Files(outs) + [OutFile(out.name, out.file.bytes)];
    assert |a| == |b|;
    forall i | 0 <= i < |a| ensures a[i] == b[i] {
      if i < |outs| {
        assert (outs + [out])[i] == outs[i];
      }
    }
  }

  /** What the whole run leaves: the output files, or the error that stopped it. */
  function MergeSpec(cfg: Config, fs: map<string, Bytes>, o0: Reader.Outs, lines: seq<string>): (r: Result<seq<OutFile>>)
    ensures r.Fail? <==> Run(cfg, fs, Start(cfg, o0), lines).Fail?
    ensures r.Ok? ==> forall i :: 0 <= i < |r.value| ==> Header.Image(Header.Zero().(runid := cfg.downlinkId)) <= r.value[i].bytes
    ensures r.Ok? && cfg.maxEvents <= 0 ==> |r.value| <= 1
  {
    var r := Run(cfg, fs, Start(cfg, o0), lines);
    if r.Fail? then Fail(r.error)
    else
      MergeOutputs(cfg, fs, o0, lines);
      FilesStartWithHeader(cfg.downlinkId, Outputs(r.value));
      Ok(Files(Outputs(r.value)))
  }

  // ---------------------------------------------------------------------------
  // What the loop promises

  /** The event lines among `lines`, in order. */
  function EventLines(lines: seq<string>): (r: seq<string>)
    ensures |r| <= |lines|
    ensures forall i :: 0 <= i < |r| ==> EvtIndex.IsEventLine(r[i])
    decreases |lines|
  {
    if |lines| == 0 then []
    else EventLines(lines[..|lines| - 1]) + (if EvtIndex.IsEventLine(lines[|lines| - 1]) then [lines[|lines| - 1]] else [])
  }

  /** The run over one more line: the run so far if it failed, else the step on that line from its state. */
  lemma RunSnoc(cfg: Config, fs: map<string, Bytes>, st0: MState, lines: seq<string>, line: string)
    requires WellFormed(st0)
    ensures var r := Run(cfg, fs, st0, lines);
      Run(cfg, fs, st0, lines + [line]) == if r.Fail? then r else Step(cfg, fs, r.value, line)
  {
    assert (lines + [line])[..|lines|] == lines;
  }

  /** Only lines that begin with `EVT:` take part: dropping all the others changes nothing. */
  lemma {:induction false} OnlyEventLines(cfg: Config, fs: map<string, Bytes>, st0: MState, lines: seq<string>)
    requires WellFormed(st0)
    ensures Run(cfg, fs, st0, lines) == Run(cfg, fs, st0, EventLines(lines))
    decreases |lines|
  {
    if |lines| > 0 {
      var pre, last := lines[..|lines| - 1], lines[|lines| - 1];
      assert lines == pre + [last];
      OnlyEventLines(cfg, fs, st0, pre);
      RunSnoc(cfg, fs, st0, pre, last);
      var ev := EventLines(pre);
      if EvtIndex.IsEventLine(last) {
        assert EventLines(lines) == ev + [last];
        RunSnoc(cfg, fs, st0, ev, last);
      } else {
        assert EventLines(lines) == ev;
      }
    }
  }

  /** An unknown info type stops the merge. */
  lemma UnknownTypeAborts(cfg: Config, st: MState, g: Reader.Got)
    requires WellFormed(st) && |g.payload| <= Ebf.Capacity
    requires !(Info.Lpa <= g.outs.itype <= Info.LciTkr)
    ensures Apply(cfg, st, g) == Fail(UnknownInfoType)
  { }

  /**
   * Each record is appended to the open output, or, when none is open, to a
   * new one named from the record's own start time and sequence number;
   * outputs already closed never change, and the out-parameters carry the
   * override into the next read.
   */
  lemma ApplyAppends(cfg: Config, st: MState, g: Reader.Got)
    requires WellFormed(st) && |g.payload| <= Ebf.Capacity && Apply(cfg, st, g).Ok?
    ensures var r := Apply(cfg, st, g).value;
      var cur := if st.cur.Some? then st.cur.value else NewOutput(cfg, g.outs);
      r.o == Overridden(cfg, g.outs) && ToEntry(r.o, g.payload).Ok? &&
      exists f: FileState :: Outputs(r) == st.done + [Output(cur.name, cur.entries + [ToEntry(r.o, g.payload).value], f)]
  {
    var cur := if st.cur.Some? then st.cur.value else NewOutput(cfg, g.outs);
    var o := Overridden(cfg, g.outs);
    var w := Put(cur, ToEntry(o, g.payload).value).value;
    CommitOutputs(cfg, st, o, w);
    assert Outputs(Apply(cfg, st, g).value) == st.done + [w];
  }

  // ----- the invariant of the run -----

  /** Every record of an output has a payload the buffer holds. */
  ghost predicate Payloads(es: seq<Session.Entry>)
  {
    forall i :: 0 <= i < |es| ==> 0 < |es[i].payload| <= Ebf.Capacity
  }

  /** An output file is the header for the run id followed by its records, in the order written. */
  ghost predicate Laid(runid: u32, out: Output)
  {
    Payloads(out.entries) &&
    out.file == FileState(Session.FileImage(runid, out.entries), |Session.FileImage(runid, out.entries)|, false)
  }

  ghost predicate AllLaid(runid: u32, outs: seq<Output>)
  {
    forall i :: 0 <= i < |outs| ==> Laid(runid, outs[i])
  }

  /** The threshold settings under which the rotation rule behaves: a positive maximum, a scale of at most one. */
  ghost predicate Tuned(cfg: Config)
  {
    cfg.maxEvents > 0 && 0.0 <= cfg.scale <= 1.0 && 0.0 <= cfg.floor
  }

  /** Every output holds between one record and the maximum. */
  ghost predicate Bounded(cfg: Config, outs: seq<Output>)
  {
    forall i :: 0 <= i < |outs| ==> 1 <= |outs[i].entries| <= cfg.maxEvents
  }

  /**
   * The counter and the threshold: the open output holds `eventsOut`
   * records, fewer than the threshold; every closed output holds between
   * one and the maximum, and the first exactly the maximum.
   */
  ghost predicate Counting(cfg: Config, st: MState)
  {
    1 <= st.currMax <= cfg.maxEvents && 0 <= st.eventsOut < st.currMax &&
    (st.cur.Some? ==> 1 <= st.eventsOut == |st.cur.value.entries|) &&
    (st.cur.None? ==> st.eventsOut == 0) &&
    Bounded(cfg, st.done) &&
    (|st.done| == 0 ==> st.currMax == cfg.maxEvents) &&
    (|st.done| > 0 ==> |st.done[0].entries| == cfg.maxEvents)
  }

  /** With no positive maximum nothing is ever closed and the counter stays at zero. */
  ghost predicate Unlimited(cfg: Config, st: MState)
  {
    st.currMax == cfg.maxEvents && st.eventsOut == 0 && st.done == []
  }

  ghost predicate Inv(cfg: Config, st: MState)
  {
    WellFormed(st) && AllLaid(cfg.downlinkId, Outputs(st)) &&
    (cfg.maxEvents <= 0 ==> Unlimited(cfg, st)) &&
    (Tuned(cfg) ==> Counting(cfg, st))
  }

  /** A new output file is the header with no records. */
  lemma HeaderFileLaid(cfg: Config, o: Reader.Outs)
    ensures Laid(cfg.downlinkId, NewOutput(cfg, o))
  {
    assert Session.Images([]) == [];
  }

  /** Writing a record onto a laid-out output appends its image, and the output stays laid out. */
  lemma PutLaid(runid: u32, out: Output, e: Session.Entry)
    requires Laid(runid, out) && 0 < |e.payload| <= Ebf.Capacity
    ensures Put(out, e).Ok? && Laid(runid, Put(out, e).value)
  {
    Writer.WriteKeyedAppends(out.file, e.ctx, e.payload, e.info, e.keys);
    FileImageGrows(runid, out.entries, e);
  }

  /** One more record appends its image to an output's file image. */
  lemma FileImageGrows(runid: u32, es: seq<Session.Entry>, e: Session.Entry)
    requires Payloads(es) && 0 < |e.payload| <= Ebf.Capacity
    ensures Payloads(es + [e])
    ensures Session.FileImage(runid, es + [e]) == Session.FileImage(runid, es) + Session.EntryImage(e)
  {
    forall i | 0 <= i < |es + [e]| ensures 0 < |(es + [e])[i].payload| <= Ebf.Capacity {
      if i < |es| { assert (es + [e])[i] == es[i]; }
    }
    Session.ImagesSnoc(es, e);
    var h, a, b := Header.Image(Header.Zero().(runid := runid)), Session.Images(es), Session.EntryImage(e);
    assert Session.FileImage(runid, es + [e]) == h + (a + b);
    Associates(h, a, b);
  }

  lemma Associates(h: Bytes, a: Bytes, b: Bytes)
    ensures h + (a + b) == (h + a) + b
  { }

  /** Closing or keeping the written output leaves the same list of outputs. */
  lemma CommitOutputs(cfg: Config, st: MState, o: Reader.Outs, out: Output)
    ensures Outputs(Commit(cfg, st, o, out)) == st.done + [out]
  { }

  /** The counting part of the invariant across one record. */
  lemma CommitCounts(cfg: Config, st: MState, o: Reader.Outs, out: Output)
    requires Tuned(cfg) && Counting(cfg, st)
    requires |out.entries| == (if st.cur.Some? then |st.cur.value.entries| else 0) + 1
    ensures Counting(cfg, Commit(cfg, st, o, out))
  {
    if Rotates(st.currMax, st.eventsOut) {
      NextMaxInRange(st.currMax, cfg.maxEvents, cfg.scale, cfg.floor);
      var d := st.done + [out];
      forall i | 0 <= i < |d| ensures 1 <= |d[i].entries| <= cfg.maxEvents {
        if i < |st.done| { assert d[i] == st.done[i]; }
      }
      assert d[0] == if |st.done| == 0 then out else st.done[0];
    }
  }

  lemma AllLaidPrefix(runid: u32, outs: seq<Output>, n: nat)
    requires AllLaid(runid, outs) && n <= |outs|
    ensures AllLaid(runid, outs[..n])
  {
    forall i | 0 <= i < n ensures Laid(runid, outs[..n][i]) {
      assert outs[..n][i] == outs[i];
    }
  }

  lemma AllLaidSnoc(runid: u32, outs: seq<Output>, out: Output)
    requires AllLaid(runid, outs) && Laid(runid, out)
    ensures AllLaid(runid, outs + [out])
  {
    forall i | 0 <= i < |outs| + 1 ensures Laid(runid, (outs + [out])[i]) {
      if i < |outs| {
        assert (outs + [out])[i] == outs[i];
      }
    }
  }

  /** The rotation step keeps the invariant. */
  lemma CommitKeeps(cfg: Config, st: MState, o: Reader.Outs, out: Output)
    requires Inv(cfg, st) && Laid(cfg.downlinkId, out)
    requires |out.entries| == (if st.cur.Some? then |st.cur.value.entries| else 0) + 1
    ensures Inv(cfg, Commit(cfg, st, o, out))
  {
    CommitOutputs(cfg, st, o, out);
    assert Outputs(st)[..|st.done|] == st.done;
    AllLaidPrefix(cfg.downlinkId, Outputs(st), |st.done|);
    AllLaidSnoc(cfg.downlinkId, st.done, out);
    if Tuned(cfg) {
      CommitCounts(cfg, st, o, out);
    }
  }

  /** A record that applies is the commit of its write onto the open output, or onto a new one. */
  lemma ApplyCommits(cfg: Config, st: MState, g: Reader.Got)
    requires WellFormed(st) && |g.payload| <= Ebf.Capacity && Apply(cfg, st, g).Ok?
    ensures var cur := if st.cur.Some? then st.cur.value else NewOutput(cfg, g.outs);
      var o := Overridden(cfg, g.outs);
      ToEntry(o, g.payload).Ok? && Put(cur, ToEntry(o, g.payload).value).Ok? &&
      Apply(cfg, st, g).value == Commit(cfg, st, o, Put(cur, ToEntry(o, g.payload).value).value)
  { }

  /** The output a record goes to, open or new, is laid out. */
  lemma CurrentLaid(cfg: Config, st: MState, outs: Reader.Outs)
    requires Inv(cfg, st)
    ensures Laid(cfg.downlinkId, if st.cur.Some? then st.cur.value else NewOutput(cfg, outs))
  {
    if st.cur.None? {
      HeaderFileLaid(cfg, outs);
    } else {
      assert Outputs(st)[|Outputs(st)| - 1] == st.cur.value;
    }
  }

  /** Applying a record keeps the invariant. */
  lemma ApplyKeeps(cfg: Config, st: MState, g: Reader.Got)
    requires Inv(cfg, st) && 0 < |g.payload| <= Ebf.Capacity && Apply(cfg, st, g).Ok?
    ensures Inv(cfg, Apply(cfg, st, g).value)
  {
    var cur := if st.cur.Some? then st.cur.value else NewOutput(cfg, g.outs);
    CurrentLaid(cfg, st, g.outs);
    var o := Overridden(cfg, g.outs);
    ApplyCommits(cfg, st, g);
    var e := ToEntry(o, g.payload).value;
    PutLaid(cfg.downlinkId, cur, e);
    CommitKeeps(cfg, st, o, Put(cur, e).value);
  }

  lemma StepKeeps(cfg: Config, fs: map<string, Bytes>, st: MState, line: string)
    requires Inv(cfg, st) && Step(cfg, fs, st, line).Ok?
    ensures Inv(cfg, Step(cfg, fs, st, line).value)
  {
    if EvtIndex.IsEventLine(line) {
      var g := Fetch(fs, EvtIndex.Parse(line).value, st.o);
      ApplyKeeps(cfg, st, g.value);
    }
  }

  /**
   * Whatever the index lines, a run that gets through them leaves output
   * files that are each a header for the downlink id followed by exactly
   * their records in order; with no positive maximum it never rotates; with
   * a positive maximum and a scale of at most one every closed file holds
   * between one record and the maximum, the first exactly the maximum.
   */
  lemma {:induction false} RunKeeps(cfg: Config, fs: map<string, Bytes>, o0: Reader.Outs, lines: seq<string>)
    requires Run(cfg, fs, Start(cfg, o0), lines).Ok?
    ensures Inv(cfg, Run(cfg, fs, Start(cfg, o0), lines).value)
    decreases |lines|
  {
    if |lines| > 0 {
      var pre := lines[..|lines| - 1];
      RunKeeps(cfg, fs, o0, pre);
      StepKeeps(cfg, fs, Run(cfg, fs, Start(cfg, o0), pre).value, lines[|lines| - 1]);
    }
  }

  /** What the invariant says about the files left on disk. */
  lemma InvOutputs(cfg: Config, st: MState)
    requires Inv(cfg, st)
    ensures AllLaid(cfg.downlinkId, Outputs(st))
    ensures cfg.maxEvents <= 0 ==> |Outputs(st)| <= 1
    ensures Tuned(cfg) ==> Bounded(cfg, Outputs(st))
  {
    if Tuned(cfg) {
      CountingBounded(cfg, st);
    }
  }

  /** Under the counter's invariant the open output is bounded like the closed ones. */
  lemma CountingBounded(cfg: Config, st: MState)
    requires Counting(cfg, st)
    ensures Bounded(cfg, Outputs(st))
  {
    var outs := Outputs(st);
    forall i | 0 <= i < |outs| ensures 1 <= |outs[i].entries| <= cfg.maxEvents {
      if i < |st.done| { assert outs[i] == st.done[i]; }
    }
  }

  /** The files a successful merge leaves, stated on the outputs themselves. */
  lemma MergeOutputs(cfg: Config, fs: map<string, Bytes>, o0: Reader.Outs, lines: seq<string>)
    requires Run(cfg, fs, Start(cfg, o0), lines).Ok?
    ensures var outs := Outputs(Run(cfg, fs, Start(cfg, o0), lines).value);
      AllLaid(cfg.downlinkId, outs) && (cfg.maxEvents <= 0 ==> |outs| <= 1) && (Tuned(cfg) ==> Bounded(cfg, outs))
  {
    RunKeeps(cfg, fs, o0, lines);
    InvOutputs(cfg, Run(cfg, fs, Start(cfg, o0), lines).value);
  }

  /** Every file of well-laid outputs begins with the header for the run id. */
  lemma FilesStartWithHeader(runid: u32, outs: seq<Output>)
    requires AllLaid(runid, outs)
    ensures forall i :: 0 <= i < |outs| ==> Header.Image(Header.Zero().(runid := runid)) <= Files(outs)[i].bytes
  {
    forall i | 0 <= i < |outs| ensures Header.Image(Header.Zero().(runid := runid)) <= Files(outs)[i].bytes {
      assert Laid(runid, outs[i]);
    }
  }

  /** The first failure ends the run: the lines after it are never looked at. */
  lemma {:induction false} RunStops(cfg: Config, fs: map<string, Bytes>, st0: MState, lines: seq<string>, n: nat)
    requires WellFormed(st0) && n <= |lines| && Run(cfg, fs, st0, lines[..n]).Fail?
    ensures Run(cfg, fs, st0, lines) == Run(cfg, fs, st0, lines[..n])
    decreases |lines|
  {
    if n == |lines| {
      assert lines[..n] == lines;
    } else {
      var pre := lines[..|lines| - 1];
      assert pre[..n] == lines[..n];
      RunStops(cfg, fs, st0, pre, n);
    }
  }

  // ---------------------------------------------------------------------------
  // The program

  /** The readers kept open, one per chunk file: each is open on that file's bytes, whose header reads. */
  ghost predicate Cached(readers: map<string, Reader.LseReader>, fs: map<string, Bytes>)
    reads readers.Values
  {
    forall k :: k in readers ==>
      k in fs && readers[k].isOpen && readers[k].file.bytes == fs[k] && Reader.HeaderError(fs[k]).None?
  }

  /**
   * `readers.find(evtfile)`: the reader already open on the chunk file, or
   * else a new one, which stays in the map for the next entries.
   */
  method OpenCached(readers: map<string, Reader.LseReader>, fs: map<string, Bytes>, path: string)
    returns (r: Result<Reader.LseReader>, readers2: map<string, Reader.LseReader>)
    requires Cached(readers, fs)
    ensures Cached(readers2, fs)
    ensures r.Ok? <==> path in fs && Reader.HeaderError(fs[path]).None?
    ensures r.Fail? ==> r.error == (if path !in fs then OpenError else Reader.HeaderError(fs[path]).value)
    ensures r.Fail? ==> readers2 == readers
    ensures r.Ok? ==> readers2 == readers[path := r.value] && r.value.isOpen && r.value.file.bytes == fs[path]
    ensures r.Ok? ==> (path in readers && r.value == readers[path]) || (path !in readers && fresh(r.value))
  {
    if path in readers {
      return Ok(readers[path]), readers;
    }
    r := Reader.LseReader.Open(fs, path);
    if path in fs {
      Reader.HeaderErrorIsRead(fs[path]);
    }
    if r.Fail? {
      return r, readers;
    }
    readers2 := readers[path := r.value];
  }

  /** The seek and the read on a cached reader; the other readers are not touched. */
  method ReadFrom(readers: map<string, Reader.LseReader>, fs: map<string, Bytes>, path: string, ebf: Ebf.EbfData, o: Reader.Outs, ofst: nat)
    returns (r: Result<Reader.Outs>)
    requires Cached(readers, fs) && path in readers && ebf.Valid()
    modifies readers[path], ebf, ebf.data
    ensures Cached(readers, fs) && ebf.Valid()
    ensures ReadAt(fs[path], ofst, o) == if r.Ok? then Ok(Reader.Got(r.value, ebf.Payload())) else Fail(r.error)
  {
    var reader := readers[path];
    label Opened:
    reader.Seek(ofst);
    assert reader.file == FileState(fs[path], ofst, false);
    var res, o2 := reader.ReadWithKeys(ebf, o);
    forall k | k in readers
      ensures k in fs && readers[k].isOpen && readers[k].file.bytes == fs[k] && Reader.HeaderError(fs[k]).None?
    {
      if readers[k] != reader {
        assert readers[k].file == old@Opened(readers[k].file) && readers[k].isOpen == old@Opened(readers[k].isOpen);
      }
    }
    if res.Fail? {
      return Fail(res.error);
    }
    if !res.value {
      return Fail(MissingRecord);
    }
    r := Ok(o2);
  }

  /**
   * The record an index entry points at, through the reader of its chunk
   * file: `seek` to the offset, then the ten-argument `read`.
   */
  method FetchRecord(readers: map<string, Reader.LseReader>, fs: map<string, Bytes>, ebf: Ebf.EbfData, o: Reader.Outs, x: EvtIndex.EvtIdx)
    returns (r: Result<Reader.Outs>, readers2: map<string, Reader.LseReader>)
    requires Cached(readers, fs) && ebf.Valid()
    modifies readers.Values, ebf, ebf.data
    ensures Cached(readers2, fs) && ebf.Valid()
    ensures Fetch(fs, x, o) == if r.Ok? then Ok(Reader.Got(r.value, ebf.Payload())) else Fail(r.error)
    ensures readers2 == readers ||
      (x.evtfile !in readers && x.evtfile in readers2 && fresh(readers2[x.evtfile]) && readers2 == readers[x.evtfile := readers2[x.evtfile]])
  {
    var rd;
    rd, readers2 := OpenCached(readers, fs, x.evtfile);
    if rd.Fail? {
      return Fail(rd.error), readers2;
    }
    r := ReadFrom(readers2, fs, x.evtfile, ebf, o, x.fileofst);
  }

  /** The `switch` on the info type: the record with its info and keys, or an error for any other type. */
  method WriteRecord(writer: Writer.LseWriter, o: Reader.Outs, ebf: Ebf.EbfData, ghost p: Bytes) returns (out: Outcome)
    requires writer.Valid() && writer.isOpen && ebf.Valid() && p == ebf.Payload()
    modifies writer
    ensures writer.Valid() && writer.isOpen
    ensures ToEntry(o, p).Fail? ==> out == Throw(UnknownInfoType) && writer.file == old(writer.file)
    ensures ToEntry(o, p).Ok? ==>
      var e := ToEntry(o, p).value;
      writer.file == Writer.WriteKeyed(old(writer.file), e.ctx, e.payload, e.info, e.keys).0 &&
      out == Writer.WriteKeyed(old(writer.file), e.ctx, e.payload, e.info, e.keys).1
  {
    if o.itype == Info.Lpa {
      out := writer.WriteWithKeys(o.ctx, ebf, Record.LpaValue(o.pinfo), Record.LpaKeysValue(o.pakeys));
    } else if o.itype == Info.LciAcd {
      out := writer.WriteWithKeys(o.ctx, ebf, Record.AcdValue(o.ainfo), Record.LciKeysValue(o.cikeys));
    } else if o.itype == Info.LciCal {
      out := writer.WriteWithKeys(o.ctx, ebf, Record.CalValue(o.cinfo), Record.LciKeysValue(o.cikeys));
    } else if o.itype == Info.LciTkr {
      out := writer.WriteWithKeys(o.ctx, ebf, Record.TkrValue(o.tinfo), Record.LciKeysValue(o.cikeys));
    } else {
      out := Throw(UnknownInfoType);
    }
  }

  /** A step as the program reports it: its outcome, and the state it leaves when it passes. */
  function AsResult(out: Outcome, st: MState): Result<MState>
  {
    if out.Pass? then Ok(st) else Fail(out.error)
  }

  /** The open writer stands for the open output: same name, same file. */
  ghost predicate Holds(writer: Writer.LseWriter?, cur: Option<Output>)
    reads if writer != null then {writer, writer.hdr} + writer.hdr.Repr() else {}
  {
    (writer != null <==> cur.Some?) &&
    (writer != null ==> writer.Valid() && writer.isOpen && writer.name == cur.value.name && writer.file == cur.value.file)
  }

  /** The loop's variables stand for the state `st` of the run. */
  ghost predicate Tracks(st: MState, writer: Writer.LseWriter?, o: Reader.Outs, eventsOut: int, currMax: int, done: seq<OutFile>)
    reads if writer != null then {writer, writer.hdr} + writer.hdr.Repr() else {}
  {
    WellFormed(st) && o == st.o && eventsOut == st.eventsOut && currMax == st.currMax && done == Files(st.done) &&
    Holds(writer, st.cur)
  }

  /** The writer is created on the first record, named from that record's start time and sequence number. */
  method OpenWriter(cfg: Config, writer: Writer.LseWriter?, got: Reader.Outs) returns (writer2: Writer.LseWriter)
    ensures writer != null ==> writer2 == writer
    ensures writer == null ==>
      fresh(writer2) && fresh(writer2.hdr.Repr()) && writer2.Valid() && writer2.isOpen &&
      writer2.name == NewOutput(cfg, got).name && writer2.file == NewOutput(cfg, got).file
  {
    if writer != null {
      return writer;
    }
    writer2 := new Writer.LseWriter(cfg.nameOf(got.ctx.run.startedAt, got.ctx.scalers.sequence), cfg.downlinkId);
  }

  /**
   * `if (currMax > 0 && ++eventsOut >= currMax)`: the full output is closed
   * and the threshold moves on; otherwise the counter goes up, but only
   * while there is a threshold.
   */
  method Rotate(cfg: Config, writer: Writer.LseWriter, eventsOut: int, currMax: int, done: seq<OutFile>)
    returns (writer2: Writer.LseWriter?, eventsOut2: int, currMax2: int, done2: seq<OutFile>)
    requires writer.Valid()
    modifies writer
    ensures writer.Valid() && writer.file == old(writer.file)
    ensures Rotates(currMax, eventsOut) ==>
      writer2 == null && eventsOut2 == 0 && !writer.isOpen &&
      currMax2 == NextMax(currMax, cfg.maxEvents, cfg.scale, cfg.floor) && done2 == done + [OutFile(writer.name, writer.file.bytes)]
    ensures !Rotates(currMax, eventsOut) ==>
      writer2 == writer && writer.isOpen == old(writer.isOpen) && currMax2 == currMax && done2 == done &&
      eventsOut2 == (if currMax > 0 then eventsOut + 1 else eventsOut)
  {
    if currMax > 0 && eventsOut + 1 >= currMax {
      writer.Close();
      return null, 0, NextMax(currMax, cfg.maxEvents, cfg.scale, cfg.floor), done + [OutFile(writer.name, writer.file.bytes)];
    }
    return writer, if currMax > 0 then eventsOut + 1 else eventsOut, currMax, done;
  }

  /** A record once read: writer, override, the typed write, then the rotation rule. */
  method Emit(cfg: Config, ghost st: MState, writer: Writer.LseWriter?, ebf: Ebf.EbfData, got: Reader.Outs, ghost p: Bytes,
              eventsOut: int, currMax: int, done: seq<OutFile>)
    returns (out: Outcome, writer2: Writer.LseWriter?, o2: Reader.Outs, eventsOut2: int, currMax2: int, done2: seq<OutFile>, ghost st2: MState)
    requires Tracks(st, writer, st.o, eventsOut, currMax, done) && ebf.Valid() && p == ebf.Payload()
    modifies writer
    ensures Apply(cfg, st, Reader.Got(got, p)) == AsResult(out, st2)
    ensures out.Pass? ==> Tracks(st2, writer2, o2, eventsOut2, currMax2, done2)
    ensures writer2 == null || writer2 == writer || (fresh(writer2) && fresh(writer2.hdr.Repr()))
  {
    eventsOut2, currMax2, done2, st2 := eventsOut, currMax, done, st;
    var w := OpenWriter(cfg, writer, got);
    writer2 := w;
    ghost var cur := if st.cur.Some? then st.cur.value else NewOutput(cfg, got);
    o2 := Overridden(cfg, got);
    out := WriteRecord(w, o2, ebf, p);
    if out.Throw? {
      return;
    }
    ghost var put := Put(cur, ToEntry(o2, p).value).value;
    assert put.file == w.file;
    st2 := Commit(cfg, st, o2, put);
    writer2, eventsOut2, currMax2, done2 := Rotate(cfg, w, eventsOut, currMax, done);
    if Rotates(currMax, eventsOut) {
      FilesSnoc(st.done, put);
    }
  }

  /** `FetchRecord` with the writer side alongside: the reader cache and the buffer are all it touches. */
  method FetchKeeping(readers: map<string, Reader.LseReader>, fs: map<string, Bytes>, ebf: Ebf.EbfData, o: Reader.Outs, x: EvtIndex.EvtIdx,
                      ghost st: MState, ghost writer: Writer.LseWriter?, ghost eventsOut: int, ghost currMax: int, ghost done: seq<OutFile>)
    returns (r: Result<Reader.Outs>, readers2: map<string, Reader.LseReader>)
    requires Cached(readers, fs) && ebf.Valid() && Tracks(st, writer, o, eventsOut, currMax, done)
    modifies readers.Values, ebf, ebf.data
    ensures Cached(readers2, fs) && ebf.Valid() && Tracks(st, writer, o, eventsOut, currMax, done)
    ensures Fetch(fs, x, o) == if r.Ok? then Ok(Reader.Got(r.value, ebf.Payload())) else Fail(r.error)
    ensures readers2 == readers ||
      (x.evtfile !in readers && x.evtfile in readers2 && fresh(readers2[x.evtfile]) && readers2 == readers[x.evtfile := readers2[x.evtfile]])
  {
    r, readers2 := FetchRecord(readers, fs, ebf, o, x);
  }

  /** `Emit` with the reader side alongside: the writer is all it touches. */
  method EmitKeeping(cfg: Config, ghost st: MState, writer: Writer.LseWriter?, ebf: Ebf.EbfData, got: Reader.Outs, ghost p: Bytes,
                     eventsOut: int, currMax: int, done: seq<OutFile>, ghost readers: map<string, Reader.LseReader>, ghost fs: map<string, Bytes>)
    returns (out: Outcome, writer2: Writer.LseWriter?, o2: Reader.Outs, eventsOut2: int, currMax2: int, done2: seq<OutFile>, ghost st2: MState)
    requires Tracks(st, writer, st.o, eventsOut, currMax, done) && ebf.Valid() && p == ebf.Payload() && Cached(readers, fs)
    modifies writer
    ensures Cached(readers, fs) && ebf.Valid()
    ensures Apply(cfg, st, Reader.Got(got, p)) == AsResult(out, st2)
    ensures out.Pass? ==> Tracks(st2, writer2, o2, eventsOut2, currMax2, done2)
    ensures writer2 == null || writer2 == writer || (fresh(writer2) && fresh(writer2.hdr.Repr()))
  {
    out, writer2, o2, eventsOut2, currMax2, done2, st2 := Emit(cfg, st, writer, ebf, got, p, eventsOut, currMax, done);
  }

  /** An event line once parsed: fetch the record through the reader cache, then emit it. */
  method HandleEvent(cfg: Config, fs: map<string, Bytes>, ghost st: MState, x: EvtIndex.EvtIdx,
                     readers: map<string, Reader.LseReader>, writer: Writer.LseWriter?, ebf: Ebf.EbfData,
                     o: Reader.Outs, eventsOut: int, currMax: int, done: seq<OutFile>)
    returns (out: Outcome, readers2: map<string, Reader.LseReader>, writer2: Writer.LseWriter?,
             o2: Reader.Outs, eventsOut2: int, currMax2: int, done2: seq<OutFile>, ghost st2: MState, ghost g: Result<Reader.Got>)
    requires Cached(readers, fs) && Tracks(st, writer, o, eventsOut, currMax, done) && ebf.Valid()
    modifies readers.Values, ebf, ebf.data, writer
    ensures g == Fetch(fs, x, o)
    ensures g.Fail? ==> out == Throw(g.error)
    ensures g.Ok? ==> Apply(cfg, st, g.value) == AsResult(out, st2)
    ensures ebf.Valid()
    ensures out.Pass? ==> Cached(readers2, fs) && Tracks(st2, writer2, o2, eventsOut2, currMax2, done2)
    ensures fresh(readers2.Values - readers.Values)
    ensures writer2 == null || writer2 == writer || (fresh(writer2) && fresh(writer2.hdr.Repr()))
  {
    writer2, o2, eventsOut2, currMax2, done2, st2 := writer, o, eventsOut, currMax, done, st;
    var got;
    got, readers2 := FetchKeeping(readers, fs, ebf, o, x, st, writer, eventsOut, currMax, done);
    if got.Fail? {
      g := Fail(got.error);
      return Throw(got.error), readers2, writer2, o2, eventsOut2, currMax2, done2, st2, g;
    }
    ghost var p := ebf.Payload();
    g := Ok(Reader.Got(got.value, p));
    out, writer2, o2, eventsOut2, currMax2, done2, st2 := EmitKeeping(cfg, st, writer, ebf, got.value, p, eventsOut, currMax, done, readers2, fs);
  }

  /** One index line: skipped, or parsed and handled as an event; a line that does not parse is an error. */
  method Handle(cfg: Config, fs: map<string, Bytes>, ghost st: MState, line: string,
                readers: map<string, Reader.LseReader>, writer: Writer.LseWriter?, ebf: Ebf.EbfData,
                o: Reader.Outs, eventsOut: int, currMax: int, done: seq<OutFile>)
    returns (out: Outcome, readers2: map<string, Reader.LseReader>, writer2: Writer.LseWriter?,
             o2: Reader.Outs, eventsOut2: int, currMax2: int, done2: seq<OutFile>, ghost st2: MState)
    requires Cached(readers, fs) && Tracks(st, writer, o, eventsOut, currMax, done) && ebf.Valid()
    modifies readers.Values, ebf, ebf.data, writer
    ensures Step(cfg, fs, st, line) == AsResult(out, st2)
    ensures ebf.Valid()
    ensures out.Pass? ==> Cached(readers2, fs) && Tracks(st2, writer2, o2, eventsOut2, currMax2, done2)
    ensures fresh(readers2.Values - readers.Values)
    ensures writer2 == null || writer2 == writer || (fresh(writer2) && fresh(writer2.hdr.Repr()))
  {
    if !EvtIndex.IsEventLine(line) {
      return Pass, readers, writer, o, eventsOut, currMax, done, st;
    }
    var px := EvtIndex.Parse(line);
    if px.None? {
      return Throw(BadIndexLine), readers, writer, o, eventsOut, currMax, done, st;
    }
    ghost var g;
    out, readers2, writer2, o2, eventsOut2, currMax2, done2, st2, g := HandleEvent(cfg, fs, st, px.value, readers, writer, ebf, o, eventsOut, currMax, done);
  }

  /** The run over one more line is the step on that line from the run so far. */
  lemma RunNext(cfg: Config, fs: map<string, Bytes>, st0: MState, lines: seq<string>, i: nat)
    requires WellFormed(st0) && i < |lines| && Run(cfg, fs, st0, lines[..i]).Ok?
    ensures Run(cfg, fs, st0, lines[..i + 1]) == Step(cfg, fs, Run(cfg, fs, st0, lines[..i]).value, lines[i])
  {
    assert lines[..i + 1][..i] == lines[..i];
  }

  /**
   * Where the loop stands after `i` lines: the run over them reached `st`,
   * the variables stand for `st`, the cached readers are open on their
   * files, and the payload buffer is intact.
   */
  ghost predicate Going(cfg: Config, fs: map<string, Bytes>, o0: Reader.Outs, lines: seq<string>, i: nat, st: MState,
                        readers: map<string, Reader.LseReader>, writer: Writer.LseWriter?, ebf: Ebf.EbfData,
                        o: Reader.Outs, eventsOut: int, currMax: int, done: seq<OutFile>)
    reads readers.Values, ebf, if writer != null then {writer, writer.hdr} + writer.hdr.Repr() else {}
  {
    i <= |lines| && Run(cfg, fs, Start(cfg, o0), lines[..i]) == Ok(st) &&
    Cached(readers, fs) && Tracks(st, writer, o, eventsOut, currMax, done) && ebf.Valid()
  }

  /** One pass of the loop: the line handled, and the run so far extended by it or ended by its error. */
  method Advance(cfg: Config, fs: map<string, Bytes>, ghost o0: Reader.Outs, lines: seq<string>, i: nat, ghost st: MState,
                 readers: map<string, Reader.LseReader>, writer: Writer.LseWriter?, ebf: Ebf.EbfData,
                 o: Reader.Outs, eventsOut: int, currMax: int, done: seq<OutFile>)
    returns (out: Outcome, readers2: map<string, Reader.LseReader>, writer2: Writer.LseWriter?,
             o2: Reader.Outs, eventsOut2: int, currMax2: int, done2: seq<OutFile>, ghost st2: MState)
    requires i < |lines| && Going(cfg, fs, o0, lines, i, st, readers, writer, ebf, o, eventsOut, currMax, done)
    modifies readers.Values, ebf, ebf.data, writer
    ensures out.Throw? ==> MergeSpec(cfg, fs, o0, lines) == Fail(out.error)
    ensures out.Pass? ==> Going(cfg, fs, o0, lines, i + 1, st2, readers2, writer2, ebf, o2, eventsOut2, currMax2, done2)
    ensures fresh(readers2.Values - readers.Values)
    ensures writer2 == null || writer2 == writer || (fresh(writer2) && fresh(writer2.hdr.Repr()))
  {
    out, readers2, writer2, o2, eventsOut2, currMax2, done2, st2 := Handle(cfg, fs, st, lines[i], readers, writer, ebf, o, eventsOut, currMax, done);
    RunNext(cfg, fs, Start(cfg, o0), lines, i);
    if out.Throw? {
      RunStops(cfg, fs, Start(cfg, o0), lines, i + 1);
    }
  }

  /** After the last line: the output still open is closed, and the files are those `MergeSpec` gives. */
  method Finish(cfg: Config, fs: map<string, Bytes>, ghost o0: Reader.Outs, lines: seq<string>, ghost st: MState,
                writer: Writer.LseWriter?, done: seq<OutFile>)
    returns (files: seq<OutFile>)
    requires Run(cfg, fs, Start(cfg, o0), lines) == Ok(st) && Holds(writer, st.cur) && done == Files(st.done)
    modifies writer
    ensures Ok(files) == MergeSpec(cfg, fs, o0, lines)
  {
    files := done;
    if writer != null {
      writer.Close();
      files := done + [OutFile(writer.name, writer.file.bytes)];
      FilesSnoc(st.done, st.cur.value);
      assert Outputs(st) == st.done + [st.cur.value];
    } else {
      assert Outputs(st) == st.done;
    }
  }

  /**
   * The main loop over the index lines: either the error that stopped it,
   * which is the one `MergeSpec` gives, or the state after the last line
   * together with the writer still open and the files already closed.
   */
  method Loop(cfg: Config, fs: map<string, Bytes>, o0: Reader.Outs, lines: seq<string>, ebf: Ebf.EbfData)
    returns (out: Outcome, writer: Writer.LseWriter?, done: seq<OutFile>, ghost st: MState)
    requires ebf.Valid()
    modifies ebf, ebf.data
    ensures out.Throw? ==> MergeSpec(cfg, fs, o0, lines) == Fail(out.error)
    ensures out.Pass? ==> Run(cfg, fs, Start(cfg, o0), lines) == Ok(st) && Holds(writer, st.cur) && done == Files(st.done)
    ensures writer != null ==> fresh(writer)
  {
    var readers: map<string, Reader.LseReader> := map[];
    writer := null;
    var o, eventsOut, currMax := o0, 0, cfg.maxEvents;
    done := [];
    st := Start(cfg, o0);
    var i := 0;
    while i < |lines|
      invariant Going(cfg, fs, o0, lines, i, st, readers, writer, ebf, o, eventsOut, currMax, done)
      invariant fresh(readers.Values)
      invariant writer != null ==> fresh(writer) && fresh(writer.hdr.Repr())
    {
      ghost var st2;
      out, readers, writer, o, eventsOut, currMax, done, st2 := Advance(cfg, fs, o0, lines, i, st, readers, writer, ebf, o, eventsOut, currMax, done);
      if out.Throw? {
        return;
      }
      st := st2;
      i := i + 1;
    }
    assert lines[..i] == lines;
    out := Pass;
  }

  /**
   * The main loop over the index lines, then the final close: the output
   * files it leaves, or the error that stopped it, are those `MergeSpec`
   * gives.
   */
  method Merge(cfg: Config, fs: map<string, Bytes>, o0: Reader.Outs, lines: seq<string>) returns (r: Result<seq<OutFile>>)
    ensures r == MergeSpec(cfg, fs, o0, lines)
  {
    var ebf := new Ebf.EbfData();
    var out, writer, done;
    ghost var st;
    out, writer, done, st := Loop(cfg, fs, o0, lines, ebf);
    if out.Throw? {
      return Fail(out.error);
    }
    var files := Finish(cfg, fs, o0, lines, st, writer, done);
    return Ok(files);
  }

}
