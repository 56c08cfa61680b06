/**
 * LSE_Info and its variants: the event-type-specific acquisition information
 * that follows each event's payload.  The LPA variant carries a variable-length
 * list of handler results; the three LCI variants (ACD, CAL, TKR) share the
 * LCI_Info fields and add their own settings.
 */
module Info {
  import opened Base
  import opened Codec
  import opened Stdio
  import Handler
  import Context

  // InfoType
  const InfoNone: int32 := -1
  const Lpa: int32 := 0
  const LciAcd: int32 := 1
  const LciCal: int32 := 2
  const LciTkr: int32 := 3
  const NumLSEInfoTypes: int32 := 4

  /**
   * The members every variant inherits from LSE_Info: the two declared in
   * the header, then the two compression members the implementation uses.
   */
  datatype LseInfo = LseInfo(timeTics: u32, timeHack: Context.GemTime, compressionLevel: u32, compressedSize: u32)

  /** The fixed part of LPA_Info: everything but the handler list. */
  datatype LpaFixed = LpaFixed(common: LseInfo, softwareKey: u32, hardwareKey: u32, lpaDbKey: u32)

  datatype LpaInfo = LpaInfo(fixed: LpaFixed, handlers: seq<Handler.LpaHandler>)

  /** The members shared by the three LCI variants. */
  datatype LciInfo = LciInfo(
    common: LseInfo, autoRange: bool, zeroSupression: bool,
    periodicPrescale: u32, softwareKey: u32, writeCfg: u32, readCfg: u32)

  datatype LciChannel = LciChannel(single: u16, all: bool, latc: bool)

  datatype AcdTrigger = AcdTrigger(veto: u16, vetoVernier: u16, hld: u16)

  datatype CalTrigger = CalTrigger(le: u16, he: u16)

  datatype AcdInfo = AcdInfo(
    lci: LciInfo, injected: u16, threshold: u16, biasDac: u16, holdDelay: u16,
    trigger: AcdTrigger, channel: LciChannel)

  datatype CalInfo = CalInfo(
    lci: LciInfo, uld: u16, injected: u16, delay: u16, threshold: u16,
    trigger: CalTrigger, channel: LciChannel)

  datatype TkrInfo = TkrInfo(lci: LciInfo, injected: u16, delay: u16, threshold: u16, channel: LciChannel)

  /** Zero-filled values standing in for the out-parameters a caller declares but has not filled. */
  function ZeroCommon(): LseInfo
  {
    LseInfo(0, Context.GemTime(0, 0), 0, 0)
  }

  function ZeroLci(): LciInfo
  {
    LciInfo(ZeroCommon(), false, false, 0, 0, 0, 0)
  }

  function EmptyLpa(): (x: LpaInfo)
    ensures Count(x) == 0 && DecLpaBody(LpaBody(x)) == Some(x)
  {
    LpaBodyRoundTrip(LpaInfo(LpaFixed(ZeroCommon(), 0, 0, 0), []));
    LpaInfo(LpaFixed(ZeroCommon(), 0, 0, 0), [])
  }

  function ZeroAcd(): AcdInfo
  {
    AcdInfo(ZeroLci(), 0, 0, 0, 0, AcdTrigger(0, 0, 0), LciChannel(0, false, false))
  }

  function ZeroCal(): CalInfo
  {
    CalInfo(ZeroLci(), 0, 0, 0, 0, CalTrigger(0, 0), LciChannel(0, false, false))
  }

  function ZeroTkr(): TkrInfo
  {
    TkrInfo(ZeroLci(), 0, 0, 0, LciChannel(0, false, false))
  }

  // ----- fixed-size images -----

  const CommonSize: nat := 20

  function CommonImage(c: LseInfo): (r: Bytes)
    ensures |r| == CommonSize
  {
    U32(c.timeTics) + (Context.GemTimeImage(c.timeHack) + (U32(c.compressionLevel) + U32(c.compressedSize)))
  }

  function DecCommon(b: Bytes): LseInfo
    requires |b| == CommonSize
  {
    LseInfo(DecU32(b[..4]), Context.DecGemTime(b[4..12]), DecU32(b[12..16]), DecU32(b[16..]))
  }

  lemma CommonRoundTrip(c: LseInfo)
    ensures DecCommon(CommonImage(c)) == c
  {
    var b := CommonImage(c);
    assert b[..4] == U32(c.timeTics);
    assert b[4..12] == Context.GemTimeImage(c.timeHack);
    assert b[12..16] == U32(c.compressionLevel);
    assert b[16..] == U32(c.compressedSize);
    U32RoundTrip(c.timeTics);
    Context.GemTimeRoundTrip(c.timeHack);
    U32RoundTrip(c.compressionLevel);
    U32RoundTrip(c.compressedSize);
  }

  const LpaFixedSize: nat := 32

  function LpaFixedImage(x: LpaFixed): (r: Bytes)
    ensures |r| == LpaFixedSize
  {
    CommonImage(x.common) + (U32(x.softwareKey) + (U32(x.hardwareKey) + U32(x.lpaDbKey)))
  }

  function DecLpaFixed(b: Bytes): LpaFixed
    requires |b| == LpaFixedSize
  {
    LpaFixed(DecCommon(b[..20]), DecU32(b[20..24]), DecU32(b[24..28]), DecU32(b[28..]))
  }

  lemma LpaFixedRoundTrip(x: LpaFixed)
    ensures DecLpaFixed(LpaFixedImage(x)) == x
  {
    var b := LpaFixedImage(x);
    assert b[..20] == CommonImage(x.common);
    assert b[20..24] == U32(x.softwareKey);
    assert b[24..28] == U32(x.hardwareKey);
    assert b[28..] == U32(x.lpaDbKey);
    CommonRoundTrip(x.common);
    U32RoundTrip(x.softwareKey);
    U32RoundTrip(x.hardwareKey);
    U32RoundTrip(x.lpaDbKey);
  }

  const LciSize: nat := 38

  function LciImage(x: LciInfo): (r: Bytes)
    ensures |r| == LciSize
  {
    CommonImage(x.common) + (Bool(x.autoRange) + (Bool(x.zeroSupression) + (U32(x.periodicPrescale) +
    (U32(x.softwareKey) + (U32(x.writeCfg) + U32(x.readCfg))))))
  }

  function DecLci(b: Bytes): LciInfo
    requires |b| == LciSize
  {
    LciInfo(DecCommon(b[..20]), DecBool(b[20..21]), DecBool(b[21..22]), DecU32(b[22..26]),
            DecU32(b[26..30]), DecU32(b[30..34]), DecU32(b[34..]))
  }

  lemma LciRoundTrip(x: LciInfo)
    ensures DecLci(LciImage(x)) == x
  {
    var b := LciImage(x);
    assert b[..20] == CommonImage(x.common);
    assert b[20..21] == Bool(x.autoRange);
    assert b[21..22] == Bool(x.zeroSupression);
    assert b[22..26] == U32(x.periodicPrescale);
    assert b[26..30] == U32(x.softwareKey);
    assert b[30..34] == U32(x.writeCfg);
    assert b[34..] == U32(x.readCfg);
    CommonRoundTrip(x.common);
    BoolRoundTrip(x.autoRange);
    BoolRoundTrip(x.zeroSupression);
    U32RoundTrip(x.periodicPrescale);
    U32RoundTrip(x.softwareKey);
    U32RoundTrip(x.writeCfg);
    U32RoundTrip(x.readCfg);
  }

  function ChannelImage(c: LciChannel): (r: Bytes)
    ensures |r| == 4
  {
    U16(c.single) + (Bool(c.all) + Bool(c.latc))
  }

  function DecChannel(b: Bytes): LciChannel
    requires |b| == 4
  {
    LciChannel(DecU16(b[..2]), DecBool(b[2..3]), DecBool(b[3..]))
  }

  lemma ChannelRoundTrip(c: LciChannel)
    ensures DecChannel(ChannelImage(c)) == c
  {
    var b := ChannelImage(c);
    assert b[..2] == U16(c.single);
    assert b[2..3] == Bool(c.all);
    assert b[3..] == Bool(c.latc);
    U16RoundTrip(c.single);
    BoolRoundTrip(c.all);
    BoolRoundTrip(c.latc);
  }

  const AcdSize: nat := 56
  const CalSize: nat := 54
  const TkrSize: nat := 48

  function AcdImage(x: AcdInfo): (r: Bytes)
    ensures |r| == AcdSize
  {
    LciImage(x.lci) + (U16(x.injected) + (U16(x.threshold) + (U16(x.biasDac) + (U16(x.holdDelay) +
    (U16(x.trigger.veto) + (U16(x.trigger.vetoVernier) + (U16(x.trigger.hld) + ChannelImage(x.channel))))))))
  }

  function DecAcd(b: Bytes): AcdInfo
    requires |b| == AcdSize
  {
    AcdInfo(DecLci(b[..38]), DecU16(b[38..40]), DecU16(b[40..42]), DecU16(b[42..44]), DecU16(b[44..46]),
            AcdTrigger(DecU16(b[46..48]), DecU16(b[48..50]), DecU16(b[50..52])), DecChannel(b[52..]))
  }

  /** Where each field of an ACD info sits in its image. */
  lemma AcdLayout(x: AcdInfo)
    ensures var b := AcdImage(x);
      b[..38] == LciImage(x.lci) && b[38..40] == U16(x.injected) && b[40..42] == U16(x.threshold) &&
      b[42..44] == U16(x.biasDac) && b[44..46] == U16(x.holdDelay) && b[46..48] == U16(x.trigger.veto) &&
      b[48..50] == U16(x.trigger.vetoVernier) && b[50..52] == U16(x.trigger.hld) && b[52..] == ChannelImage(x.channel)
  {
    var b := AcdImage(x);
    var r7 := U16(x.trigger.hld) + ChannelImage(x.channel);
    var r6 := U16(x.trigger.vetoVernier) + r7;
    var r5 := U16(x.trigger.veto) + r6;
    var r4 := U16(x.holdDelay) + r5;
    var r3 := U16(x.biasDac) + r4;
    var r2 := U16(x.threshold) + r3;
    var r1 := U16(x.injected) + r2;
    SplitAt(LciImage(x.lci), r1);
    PeelAt(b, 38, U16(x.injected), r2);
    PeelAt(b, 40, U16(x.threshold), r3);
    PeelAt(b, 42, U16(x.biasDac), r4);
    PeelAt(b, 44, U16(x.holdDelay), r5);
    PeelAt(b, 46, U16(x.trigger.veto), r6);
    PeelAt(b, 48, U16(x.trigger.vetoVernier), r7);
    PeelAt(b, 50, U16(x.trigger.hld), ChannelImage(x.channel));
  }

  lemma AcdRoundTrip(x: AcdInfo)
    ensures DecAcd(AcdImage(x)) == x
  {
    AcdLayout(x);
    LciRoundTrip(x.lci);
    U16RoundTrip(x.injected);
    U16RoundTrip(x.threshold);
    U16RoundTrip(x.biasDac);
    U16RoundTrip(x.holdDelay);
    U16RoundTrip(x.trigger.veto);
    U16RoundTrip(x.trigger.vetoVernier);
    U16RoundTrip(x.trigger.hld);
    ChannelRoundTrip(x.channel);
  }

  function CalImage(x: CalInfo): (r: Bytes)
    ensures |r| == CalSize
  {
    LciImage(x.lci) + (U16(x.uld) + (U16(x.injected) + (U16(x.delay) + (U16(x.threshold) +
    (U16(x.trigger.le) + (U16(x.trigger.he) + ChannelImage(x.channel)))))))
  }

  function DecCal(b: Bytes): CalInfo
    requires |b| == CalSize
  {
    CalInfo(DecLci(b[..38]), DecU16(b[38..40]), DecU16(b[40..42]), DecU16(b[42..44]), DecU16(b[44..46]),
            CalTrigger(DecU16(b[46..48]), DecU16(b[48..50])), DecChannel(b[50..]))
  }

  lemma CalRoundTrip(x: CalInfo)
    ensures DecCal(CalImage(x)) == x
  {
    var b := CalImage(x);
    assert b[..38] == LciImage(x.lci);
    assert b[38..40] == U16(x.uld);
    assert b[40..42] == U16(x.injected);
    assert b[42..44] == U16(x.delay);
    assert b[44..46] == U16(x.threshold);
    assert b[46..48] == U16(x.trigger.le);
    assert b[48..50] == U16(x.trigger.he);
    assert b[50..] == ChannelImage(x.channel);
    LciRoundTrip(x.lci);
    U16RoundTrip(x.uld);
    U16RoundTrip(x.injected);
    U16RoundTrip(x.delay);
    U16RoundTrip(x.threshold);
    U16RoundTrip(x.trigger.le);
    U16RoundTrip(x.trigger.he);
    ChannelRoundTrip(x.channel);
  }

  function TkrImage(x: TkrInfo): (r: Bytes)
    ensures |r| == TkrSize
  {
    LciImage(x.lci) + (U16(x.injected) + (U16(x.delay) + (U16(x.threshold) + ChannelImage(x.channel))))
  }

  function DecTkr(b: Bytes): TkrInfo
    requires |b| == TkrSize
  {
    TkrInfo(DecLci(b[..38]), DecU16(b[38..40]), DecU16(b[40..42]), DecU16(b[42..44]), DecChannel(b[44..]))
  }

  lemma TkrRoundTrip(x: TkrInfo)
    ensures DecTkr(TkrImage(x)) == x
  {
    var b := TkrImage(x);
    assert b[..38] == LciImage(x.lci);
    assert b[38..40] == U16(x.injected);
    assert b[40..42] == U16(x.delay);
    assert b[42..44] == U16(x.threshold);
    assert b[44..] == ChannelImage(x.channel);
    LciRoundTrip(x.lci);
    U16RoundTrip(x.injected);
    U16RoundTrip(x.delay);
    U16RoundTrip(x.threshold);
    ChannelRoundTrip(x.channel);
  }

  /**
   * Every variant begins with timeTics and timeHack, and every LCI variant
   * begins with the whole LCI_Info part.
   */
  lemma CommonPrefix(p: LpaInfo, a: AcdInfo, c: CalInfo, t: TkrInfo)
    ensures LpaFixedImage(p.fixed)[..CommonSize] == CommonImage(p.fixed.common)
    ensures AcdImage(a)[..LciSize] == LciImage(a.lci)
    ensures CalImage(c)[..LciSize] == LciImage(c.lci)
    ensures TkrImage(t)[..LciSize] == LciImage(t.lci)
    ensures LciImage(a.lci)[..CommonSize] == CommonImage(a.lci.common)
    ensures CommonImage(p.fixed.common)[..4] == U32(p.fixed.common.timeTics)
    ensures CommonImage(p.fixed.common)[4..12] == Context.GemTimeImage(p.fixed.common.timeHack)
  {
    var b := CommonImage(p.fixed.common);
    assert b[4..12] == (Context.GemTimeImage(p.fixed.common.timeHack) + (U32(p.fixed.common.compressionLevel) + U32(p.fixed.common.compressedSize)))[..8];
  }

  // ----- the handler list -----

  /** The handler records back to back, in list order. */
  function HandlersImage(hs: seq<Handler.LpaHandler>): (r: Bytes)
    ensures |r| == Handler.HandlerSize * |hs|
  {
    if |hs| == 0 then [] else Handler.Image(hs[0]) + HandlersImage(hs[1..])
  }

  function DecHandlers(b: Bytes, n: nat): (hs: seq<Handler.LpaHandler>)
    requires |b| == Handler.HandlerSize * n
    ensures |hs| == n
  {
    if n == 0 then [] else [Handler.Decode(b[..Handler.HandlerSize])] + DecHandlers(b[Handler.HandlerSize..], n - 1)
  }

  /** Decoding a record followed by more records yields that record's decoding first. */
  lemma DecHandlersCons(u: Bytes, rest: Bytes, n: nat)
    requires |u| == Handler.HandlerSize && |rest| == Handler.HandlerSize * n
    ensures DecHandlers(u + rest, n + 1) == [Handler.Decode(u)] + DecHandlers(rest, n)
  {
    SplitAt(u, rest);
  }

  /** A handler's record in front of a block that reads back as `tail` reads back as the handler, then `tail`. */
  lemma HandlersConsRoundTrip(h: Handler.LpaHandler, rest: Bytes, tail: seq<Handler.LpaHandler>)
    requires |rest| == Handler.HandlerSize * |tail| && DecHandlers(rest, |tail|) == tail
    ensures DecHandlers(Handler.Image(h) + rest, |tail| + 1) == [h] + tail
  {
    DecHandlersCons(Handler.Image(h), rest, |tail|);
    Handler.RoundTrip(h);
  }

  /** The block of handler records reads back as the same list, in the same order. */
  lemma {:induction false} HandlersRoundTrip(hs: seq<Handler.LpaHandler>)
    ensures DecHandlers(HandlersImage(hs), |hs|) == hs
  {
    if |hs| > 0 {
      var tail := hs[1..];
      HandlersRoundTrip(tail);
      HandlersConsRoundTrip(hs[0], HandlersImage(tail), tail);
      assert HandlersImage(hs) == Handler.Image(hs[0]) + HandlersImage(tail);
      assert [hs[0]] + tail == hs;
    }
  }

  /** The handler count `write` stores: the list length truncated to an `unsigned`. */
  function Count(x: LpaInfo): (n: u32)
    ensures n <= |x.handlers|
    ensures |x.handlers| < 0x1_0000_0000 ==> n == |x.handlers|
  {
    |x.handlers| % 0x1_0000_0000
  }

  /** What `LPA_Info::write` emits after the tag: fixed part, count, and `count` handler records. */
  function LpaBody(x: LpaInfo): (r: Bytes)
    ensures |r| == LpaFixedSize + 4 + Handler.HandlerSize * Count(x)
  {
    LpaFixedImage(x.fixed) + (U32(Count(x)) + HandlersImage(x.handlers[..Count(x)]))
  }

  /**
   * The LPA image taken back from a byte buffer of a given length: the
   * count must match the length that remains.
   */
  function DecLpaBody(b: Bytes): (r: Option<LpaInfo>)
    ensures r.Some? ==> |b| == LpaFixedSize + 4 + Handler.HandlerSize * |r.value.handlers|
  {
    if |b| < LpaFixedSize + 4 then None
    else
      var n := DecU32(b[LpaFixedSize..LpaFixedSize + 4]);
      if |b| != LpaFixedSize + 4 + Handler.HandlerSize * n then None
      else Some(LpaInfo(DecLpaFixed(b[..LpaFixedSize]), DecHandlers(b[LpaFixedSize + 4..], n)))
  }

  /** The LPA image decodes to the info with its first `Count` handlers. */
  lemma LpaBodyRoundTrip(x: LpaInfo)
    ensures DecLpaBody(LpaBody(x)) == Some(LpaInfo(x.fixed, x.handlers[..Count(x)]))
  {
    var n := Count(x);
    var b := LpaBody(x);
    assert b[..LpaFixedSize] == LpaFixedImage(x.fixed);
    assert b[LpaFixedSize..LpaFixedSize + 4] == U32(n);
    assert b[LpaFixedSize + 4..] == HandlersImage(x.handlers[..n]);
    LpaFixedRoundTrip(x.fixed);
    U32RoundTrip(n);
    HandlersRoundTrip(x.handlers[..n]);
  }

  // ----- LPA_Info::write and LPA_Info::read over a stream -----

  /** `LPA_Info::write`: tag LPA, fixed part, count, then the handlers unless there are none. */
  function WriteLpaInfo(f: FileState, x: LpaInfo): (r: (FileState, Outcome))
    requires f.pos <= |f.bytes|
    ensures r.0.pos <= |r.0.bytes|
  {
    var w1 := Fwrite(f, I32(Lpa));
    if !w1.1 then (w1.0, Throw(ShortWrite))
    else
      var w2 := Fwrite(w1.0, LpaFixedImage(x.fixed));
      if !w2.1 then (w2.0, Throw(ShortWrite))
      else
        var w3 := Fwrite(w2.0, U32(Count(x)));
        if !w3.1 then (w3.0, Throw(ShortWrite))
        else if Count(x) == 0 then (w3.0, Pass)
        else
          var w4 := Fwrite(w3.0, HandlersImage(x.handlers[..Count(x)]));
          if !w4.1 then (w4.0, Throw(ShortWrite)) else (w4.0, Pass)
  }

  /**
   * `LPA_Info::read` into an object that already holds `prior`: the fixed
   * part, the count, then exactly that many handlers; a count of zero
   * returns at once and leaves the prior handler list in place.
   */
  function ReadLpaInfo(f: FileState, prior: LpaInfo): (r: (FileState, Result<LpaInfo>))
    ensures r.0.bytes == f.bytes
  {
    var (f1, fb) := Fread(f, LpaFixedSize);
    if fb.None? then (f1, Fail(ShortRead))
    else
      var (f2, cb) := Fread(f1, 4);
      if cb.None? then (f2, Fail(ShortRead))
      else
        var n := DecU32(cb.value);
        var fixed := DecLpaFixed(fb.value);
        if n == 0 then (f2, Ok(LpaInfo(fixed, prior.handlers)))
        else
          var (f3, hb) := Fread(f2, Handler.HandlerSize * n);
          if hb.None? then (f3, Fail(ShortRead)) else (f3, Ok(LpaInfo(fixed, DecHandlers(hb.value, n))))
  }

  /** The first three writes of `write` at the end of a file: tag, fixed part and count are appended. */
  lemma WriteLpaPrefix(f: FileState, x: LpaInfo)
    requires f.pos == |f.bytes|
    ensures var pre := f.bytes + (I32(Lpa) + (LpaFixedImage(x.fixed) + U32(Count(x))));
      var w := Fwrite(Fwrite(Fwrite(f, I32(Lpa)).0, LpaFixedImage(x.fixed)).0, U32(Count(x)));
      Fwrite(f, I32(Lpa)).1 && Fwrite(Fwrite(f, I32(Lpa)).0, LpaFixedImage(x.fixed)).1 && w.1 &&
      w.0 == f.(bytes := pre, pos := |pre|)
  {
    var t, fx, c := I32(Lpa), LpaFixedImage(x.fixed), U32(Count(x));
    var f1 := f.(bytes := f.bytes + t, pos := |f.bytes| + 4);
    var f2 := f.(bytes := f.bytes + t + fx, pos := |f.bytes| + 4 + LpaFixedSize);
    FwriteAppends(f, t);
    FwriteAppends(f1, fx);
    FwriteAppends(f2, c);
    assert f.bytes + t + fx + c == f.bytes + (t + (fx + c));
  }

  /** At the end of a file, `write` appends the tag and the body and succeeds. */
  lemma WriteLpaInfoAppends(f: FileState, x: LpaInfo)
    requires f.pos == |f.bytes|
    ensures WriteLpaInfo(f, x).0 == f.(bytes := f.bytes + (I32(Lpa) + LpaBody(x)), pos := |f.bytes| + 4 + |LpaBody(x)|)
    ensures WriteLpaInfo(f, x).1 == Pass
  {
    var n := Count(x);
    var t, fx, c, hs := I32(Lpa), LpaFixedImage(x.fixed), U32(n), HandlersImage(x.handlers[..n]);
    WriteLpaPrefix(f, x);
    var pre := f.bytes + (t + (fx + c));
    var f3 := f.(bytes := pre, pos := |pre|);
    var w3 := Fwrite(Fwrite(Fwrite(f, t).0, fx).0, c);
    assert w3.1 && w3.0 == f3;
    if n == 0 {
      assert hs == [];
      assert t + (fx + (c + hs)) == t + (fx + c);
      assert WriteLpaInfo(f, x).0 == f3;
    } else {
      var w4 := Fwrite(f3, hs);
      FwriteAppends(f3, hs);
      assert w4.0.bytes == f.bytes + (t + LpaBody(x)) by {
        assert LpaBody(x) == fx + (c + hs);
        Reassociate(f.bytes, t, fx, c, hs);
      }
      assert WriteLpaInfo(f, x).0 == w4.0;
    }
  }

  /** The reads of `read` over any byte strings of the right shape lying at the cursor. */
  lemma ReadLpaSteps(f: FileState, fx: Bytes, n: u32, hs: Bytes, prior: LpaInfo)
    requires |fx| == LpaFixedSize && |hs| == Handler.HandlerSize * n && At(f, fx + (U32(n) + hs))
    ensures ReadLpaInfo(f, prior).0 == f.(pos := f.pos + |fx| + 4 + |hs|)
    ensures ReadLpaInfo(f, prior).1 == Ok(LpaInfo(DecLpaFixed(fx), if n == 0 then prior.handlers else DecHandlers(hs, n)))
  {
    AtSplit(f, fx, U32(n) + hs);
    FreadAt(f, fx);
    var f1 := f.(pos := f.pos + |fx|);
    AtSplit(f1, U32(n), hs);
    FreadAt(f1, U32(n));
    var f2 := f1.(pos := f1.pos + 4);
    U32RoundTrip(n);
    assert Fread(f, LpaFixedSize) == (f1, Some(fx));
    assert Fread(f1, 4) == (f2, Some(U32(n)));
    if n > 0 {
      FreadAt(f2, hs);
      assert Fread(f2, Handler.HandlerSize * n) == (f2.(pos := f2.pos + |hs|), Some(hs));
    }
  }

  /**
   * Round trip: where `write` put an info, `read` past the tag into an empty
   * object returns the fixed part and the first `Count` handlers, in order.
   */
  lemma ReadLpaInfoBody(f: FileState, x: LpaInfo)
    requires At(f, LpaBody(x))
    ensures ReadLpaInfo(f, EmptyLpa()).0 == f.(pos := f.pos + |LpaBody(x)|)
    ensures ReadLpaInfo(f, EmptyLpa()).1 == Ok(LpaInfo(x.fixed, x.handlers[..Count(x)]))
  {
    var n := Count(x);
    ReadLpaSteps(f, LpaFixedImage(x.fixed), n, HandlersImage(x.handlers[..n]), EmptyLpa());
    LpaFixedRoundTrip(x.fixed);
    HandlersRoundTrip(x.handlers[..n]);
  }

  /** A zero count keeps the handlers the object already held; a non-zero count replaces them with exactly that many. */
  lemma ReadLpaInfoCount(f: FileState, prior: LpaInfo)
    requires f.pos + LpaFixedSize + 4 <= |f.bytes|
    ensures var r := ReadLpaInfo(f, prior);
      var n := DecU32(f.bytes[f.pos + LpaFixedSize..f.pos + LpaFixedSize + 4]);
      (n == 0 ==> r.1 == Ok(LpaInfo(DecLpaFixed(f.bytes[f.pos..f.pos + LpaFixedSize]), prior.handlers))) &&
      (n > 0 && r.1.Ok? ==> |r.1.value.handlers| == n) &&
      (n > 0 ==> (r.1.Ok? <==> f.pos + LpaFixedSize + 4 + Handler.HandlerSize * n <= |f.bytes|))
  {
  }

  /** The mutable LPA_Info object whose `write` and `read` use a stream. */
  class LpaInfoRecord {
    var fixed: LpaFixed
    var handlers: seq<Handler.LpaHandler>

    function Value(): LpaInfo
      reads this
    {
      LpaInfo(fixed, handlers)
    }

    constructor (x: LpaInfo)
      ensures Value() == x
    {
      fixed := x.fixed;
      handlers := x.handlers;
    }

    /** `LPA_Info::write`; every short write throws. */
    method Write(f: FileState) returns (g: FileState, out: Outcome)
      requires f.pos <= |f.bytes|
      ensures (g, out) == WriteLpaInfo(f, Value())
    {
      var r1 := Fwrite(f, I32(Lpa));
      if !r1.1 {
        return r1.0, Throw(ShortWrite);
      }
      var r2 := Fwrite(r1.0, LpaFixedImage(fixed));
      if !r2.1 {
        return r2.0, Throw(ShortWrite);
      }
      var n := |handlers| % 0x1_0000_0000;
      var r3 := Fwrite(r2.0, U32(n));
      if !r3.1 {
        return r3.0, Throw(ShortWrite);
      }
      if n == 0 {
        return r3.0, Pass;
      }
      var r4 := Fwrite(r3.0, HandlersImage(handlers[..n]));
      g, out := r4.0, if r4.1 then Pass else Throw(ShortWrite);
    }

    /** `LPA_Info::read`: on success the object holds what the stream says, the handler list resized to the count. */
    method Read(f: FileState) returns (g: FileState, out: Outcome)
      modifies this
      ensures g == ReadLpaInfo(f, old(Value())).0
      ensures out.Pass? <==> ReadLpaInfo(f, old(Value())).1.Ok?
      ensures out.Pass? ==> Value() == ReadLpaInfo(f, old(Value())).1.value
      ensures out.Throw? ==> out.error == ShortRead
    {
      var r1 := Fread(f, LpaFixedSize);
      if r1.1.None? {
        return r1.0, Throw(ShortRead);
      }
      fixed := DecLpaFixed(r1.1.value);
      var r2 := Fread(r1.0, 4);
      if r2.1.None? {
        return r2.0, Throw(ShortRead);
      }
      var n := DecU32(r2.1.value);
      if n == 0 {
        return r2.0, Pass;
      }
      handlers := seq(n, _ => Handler.Default());
      var r3 := Fread(r2.0, Handler.HandlerSize * n);
      g := r3.0;
      if r3.1.None? {
        return g, Throw(ShortRead);
      }
      handlers := DecHandlers(r3.1.value, n);
      out := Pass;
    }
  }
}
