/**
 * LSE_Context: the acquisition context stored in front of every event, made of
 * what the CCSDS packet stream, the current and previous time tones, the
 * scalers and the run, open and close records said about it.  On disk it is
 * each member in declaration order.
 */
module Context {
  import opened Codec

  datatype GemTime = GemTime(tics: u32, hacks: u32)

  /** FromCcsds; the `double utc` is carried as its 64-bit pattern. */
  datatype FromCcsds = FromCcsds(scid: int32, apid: int32, utc: u64)

  datatype FromTimetone = FromTimetone(
    timeSecs: u32, timeHack: GemTime, incomplete: u32, flywheeling: u32,
    missingTimeTone: bool, missingCpuPps: bool, missingLatPps: bool, earlyEvent: bool, missingGps: bool)

  datatype FromScalers = FromScalers(
    elapsed: u64, livetime: u64, prescaled: u64, discarded: u64, sequence: u64, deadzone: u64)

  datatype FromRun = FromRun(
    platform: int32, origin: int32, groundId: u32, startedAt: u32, platformTxt: Text16, originTxt: Text16)

  datatype FromOpen = FromOpen(
    modeChanges: u32, datagrams: u32, action: int32, reason: int32, crate: int32, mode: int32,
    actionTxt: Text16, reasonTxt: Text16, crateTxt: Text16, modeTxt: Text16)

  datatype FromClose = FromClose(action: int32, reason: int32, actionTxt: Text16, reasonTxt: Text16)

  datatype LseContext = LseContext(
    ccsds: FromCcsds, current: FromTimetone, previous: FromTimetone, scalers: FromScalers,
    run: FromRun, open: FromOpen, close: FromClose)

  const ContextSize: nat := 290

  function GemTimeImage(g: GemTime): (r: Bytes)
    ensures |r| == 8
  {
    U32(g.tics) + U32(g.hacks)
  }

  function DecGemTime(b: Bytes): GemTime
    requires |b| == 8
  {
    GemTime(DecU32(b[..4]), DecU32(b[4..]))
  }

  lemma GemTimeRoundTrip(g: GemTime)
    ensures DecGemTime(GemTimeImage(g)) == g
  {
    var b := GemTimeImage(g);
    assert b[..4] == U32(g.tics);
    assert b[4..] == U32(g.hacks);
    U32RoundTrip(g.tics);
    U32RoundTrip(g.hacks);
  }

  function CcsdsImage(c: FromCcsds): (r: Bytes)
    ensures |r| == 16
  {
    I32(c.scid) + (I32(c.apid) + U64(c.utc))
  }

  function DecCcsds(b: Bytes): FromCcsds
    requires |b| == 16
  {
    FromCcsds(DecI32(b[..4]), DecI32(b[4..8]), DecU64(b[8..]))
  }

  lemma CcsdsRoundTrip(c: FromCcsds)
    ensures DecCcsds(CcsdsImage(c)) == c
  {
    var b := CcsdsImage(c);
    assert b[..4] == I32(c.scid);
    assert b[4..8] == I32(c.apid);
    assert b[8..] == U64(c.utc);
    I32RoundTrip(c.scid);
    I32RoundTrip(c.apid);
    U64RoundTrip(c.utc);
  }

  function FlagsImage(t: FromTimetone): (r: Bytes)
    ensures |r| == 5
  {
    Bool(t.missingTimeTone) + Bool(t.missingCpuPps) + Bool(t.missingLatPps) + Bool(t.earlyEvent) + Bool(t.missingGps)
  }

  function TimetoneImage(t: FromTimetone): (r: Bytes)
    ensures |r| == 25
  {
    U32(t.timeSecs) + (GemTimeImage(t.timeHack) + (U32(t.incomplete) + (U32(t.flywheeling) + FlagsImage(t))))
  }

  function DecTimetone(b: Bytes): FromTimetone
    requires |b| == 25
  {
    FromTimetone(DecU32(b[..4]), DecGemTime(b[4..12]), DecU32(b[12..16]), DecU32(b[16..20]),
                 b[20] != 0, b[21] != 0, b[22] != 0, b[23] != 0, b[24] != 0)
  }

  lemma TimetoneRoundTrip(t: FromTimetone)
    ensures DecTimetone(TimetoneImage(t)) == t
  {
    var b := TimetoneImage(t);
    assert b[..4] == U32(t.timeSecs);
    assert b[4..12] == GemTimeImage(t.timeHack);
    assert b[12..16] == U32(t.incomplete);
    assert b[16..20] == U32(t.flywheeling);
    assert b[20..] == FlagsImage(t);
    U32RoundTrip(t.timeSecs);
    GemTimeRoundTrip(t.timeHack);
    U32RoundTrip(t.incomplete);
    U32RoundTrip(t.flywheeling);
  }

  function ScalersImage(s: FromScalers): (r: Bytes)
    ensures |r| == 48
  {
    U64(s.elapsed) + (U64(s.livetime) + (U64(s.prescaled) + (U64(s.discarded) + (U64(s.sequence) + U64(s.deadzone)))))
  }

  function DecScalers(b: Bytes): FromScalers
    requires |b| == 48
  {
    FromScalers(DecU64(b[..8]), DecU64(b[8..16]), DecU64(b[16..24]), DecU64(b[24..32]),
                DecU64(b[32..40]), DecU64(b[40..]))
  }

  lemma ScalersRoundTrip(s: FromScalers)
    ensures DecScalers(ScalersImage(s)) == s
  {
    var b := ScalersImage(s);
    assert b[..8] == U64(s.elapsed);
    assert b[8..16] == U64(s.livetime);
    assert b[16..24] == U64(s.prescaled);
    assert b[24..32] == U64(s.discarded);
    assert b[32..40] == U64(s.sequence);
    assert b[40..] == U64(s.deadzone);
    U64RoundTrip(s.elapsed);
    U64RoundTrip(s.livetime);
    U64RoundTrip(s.prescaled);
    U64RoundTrip(s.discarded);
    U64RoundTrip(s.sequence);
    U64RoundTrip(s.deadzone);
  }

  function RunImage(r: FromRun): (b: Bytes)
    ensures |b| == 48
  {
    I32(r.platform) + (I32(r.origin) + (U32(r.groundId) + (U32(r.startedAt) + (r.platformTxt + r.originTxt))))
  }

  function DecRun(b: Bytes): FromRun
    requires |b| == 48
  {
    FromRun(DecI32(b[..4]), DecI32(b[4..8]), DecU32(b[8..12]), DecU32(b[12..16]), b[16..32], b[32..])
  }

  lemma RunRoundTrip(r: FromRun)
    ensures DecRun(RunImage(r)) == r
  {
    var b := RunImage(r);
    assert b[..4] == I32(r.platform);
    assert b[4..8] == I32(r.origin);
    assert b[8..12] == U32(r.groundId);
    assert b[12..16] == U32(r.startedAt);
    assert b[16..32] == r.platformTxt;
    assert b[32..] == r.originTxt;
    I32RoundTrip(r.platform);
    I32RoundTrip(r.origin);
    U32RoundTrip(r.groundId);
    U32RoundTrip(r.startedAt);
  }

  function OpenImage(o: FromOpen): (r: Bytes)
    ensures |r| == 88
  {
    U32(o.modeChanges) + (U32(o.datagrams) + (I32(o.action) + (I32(o.reason) + (I32(o.crate) + (I32(o.mode) +
    (o.actionTxt + (o.reasonTxt + (o.crateTxt + o.modeTxt))))))))
  }

  function DecOpen(b: Bytes): FromOpen
    requires |b| == 88
  {
    FromOpen(DecU32(b[..4]), DecU32(b[4..8]), DecI32(b[8..12]), DecI32(b[12..16]), DecI32(b[16..20]),
             DecI32(b[20..24]), b[24..40], b[40..56], b[56..72], b[72..])
  }

  lemma OpenRoundTrip(o: FromOpen)
    ensures DecOpen(OpenImage(o)) == o
  {
    var b := OpenImage(o);
    assert b[..4] == U32(o.modeChanges);
    assert b[4..8] == U32(o.datagrams);
    assert b[8..12] == I32(o.action);
    assert b[12..16] == I32(o.reason);
    assert b[16..20] == I32(o.crate);
    assert b[20..24] == I32(o.mode);
    assert b[24..40] == o.actionTxt;
    assert b[40..56] == o.reasonTxt;
    assert b[56..72] == o.crateTxt;
    assert b[72..] == o.modeTxt;
    U32RoundTrip(o.modeChanges);
    U32RoundTrip(o.datagrams);
    I32RoundTrip(o.action);
    I32RoundTrip(o.reason);
    I32RoundTrip(o.crate);
    I32RoundTrip(o.mode);
  }

  function CloseImage(c: FromClose): (r: Bytes)
    ensures |r| == 40
  {
    I32(c.action) + (I32(c.reason) + (c.actionTxt + c.reasonTxt))
  }

  function DecClose(b: Bytes): FromClose
    requires |b| == 40
  {
    FromClose(DecI32(b[..4]), DecI32(b[4..8]), b[8..24], b[24..])
  }

  lemma CloseRoundTrip(c: FromClose)
    ensures DecClose(CloseImage(c)) == c
  {
    var b := CloseImage(c);
    assert b[..4] == I32(c.action);
    assert b[4..8] == I32(c.reason);
    assert b[8..24] == c.actionTxt;
    assert b[24..] == c.reasonTxt;
    I32RoundTrip(c.action);
    I32RoundTrip(c.reason);
  }

  /** The context record: its seven parts in declaration order. */
  function Image(c: LseContext): (r: Bytes)
    ensures |r| == ContextSize
  {
    CcsdsImage(c.ccsds) + (TimetoneImage(c.current) + (TimetoneImage(c.previous) + (ScalersImage(c.scalers) +
    (RunImage(c.run) + (OpenImage(c.open) + CloseImage(c.close))))))
  }

  /** Each part is decoded from the front of what the parts before it left over. */
  function Decode(b: Bytes): LseContext
    requires |b| == ContextSize
  {
    var p2 := b[16..];
    var p3 := p2[25..];
    var p4 := p3[25..];
    var p5 := p4[48..];
    var p6 := p5[48..];
    var p7 := p6[88..];
    LseContext(DecCcsds(b[..16]), DecTimetone(p2[..25]), DecTimetone(p3[..25]), DecScalers(p4[..48]),
               DecRun(p5[..48]), DecOpen(p6[..88]), DecClose(p7))
  }

  /** A context record reads back as the context that was written. */
  lemma RoundTrip(c: LseContext)
    ensures Decode(Image(c)) == c
  {
    var p7 := CloseImage(c.close);
    var p6 := OpenImage(c.open) + p7;
    var p5 := RunImage(c.run) + p6;
    var p4 := ScalersImage(c.scalers) + p5;
    var p3 := TimetoneImage(c.previous) + p4;
    var p2 := TimetoneImage(c.current) + p3;
    SplitAt(CcsdsImage(c.ccsds), p2);
    SplitAt(TimetoneImage(c.current), p3);
    SplitAt(TimetoneImage(c.previous), p4);
    SplitAt(ScalersImage(c.scalers), p5);
    SplitAt(RunImage(c.run), p6);
    SplitAt(OpenImage(c.open), p7);
    CcsdsRoundTrip(c.ccsds);
    TimetoneRoundTrip(c.current);
    TimetoneRoundTrip(c.previous);
    ScalersRoundTrip(c.scalers);
    RunRoundTrip(c.run);
    OpenRoundTrip(c.open);
    CloseRoundTrip(c.close);
  }
}
