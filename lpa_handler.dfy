/**
 * LPA_Handler: the per-handler result summary that an LPA event carries.  The
 * handler-specific summary data (RSD) is a C union; which member of it is
 * meaningful is decided by the triple (has, version, id), and each accessor
 * exposes its member only for its own exact triple.
 */
module Handler {
  import opened Base
  import opened Codec

  // HandlerType
  const Unknown: int32 := -1
  const Filter: int32 := 0
  const Monitor: int32 := 1
  const HandlerTypeMin: int32 := -1
  const HandlerTypeMax: int32 := 1
  const HandlerTypeCnt: int := HandlerTypeMax as int - HandlerTypeMin as int + 1

  // HandlerId
  const PassThru: int32 := 0
  const Gamma: int32 := 1
  const Asc: int32 := 2
  const Mip: int32 := 3
  const Hip: int32 := 4
  const Dgn: int32 := 5
  const MaxHandlerIds: int32 := 6
  /** Not declared by the header: the lowest enumerant and the name-table length. */
  const HandlerIdMin: int32 := 0
  const HandlerIdCnt: int := 6

  // RsdState
  const Invalid: int32 := -1
  const Passed: int32 := 0
  const Suppressed: int32 := 1
  const Vetoed: int32 := 2
  const Leaked: int32 := 3
  const Ignored: int32 := 4
  const RsdStateMin: int32 := -1
  const RsdStateCnt: int := 6

  // LeakedPrescaler: Unsupported, Input, Output, then COND00 .. COND31 = 0 .. 31
  const Unsupported: int32 := -3
  const Input: int32 := -2
  const Output: int32 := -1
  const LeakedPrescalerMin: int32 := -3
  const LeakedPrescalerCnt: int := 35

  /** `COND<k>`: leaked by the prescaler of condition k. */
  function Cond(k: nat): (p: int32)
    requires k < 32
    ensures p as int == k && Output < p
  {
    k as int32
  }

  /**
   * The RSD union as raw storage: four words, the size of its largest member.
   * Every view reads the leading words it covers.
   */
  datatype RsdStorage = RsdStorage(w0: u32, w1: u32, w2: u32, w3: u32)

  /** DgnHandlerRsdV0, HipHandlerRsdV0, MipHandlerRsdV0, PassthruHandlerRsdV0: one status word. */
  datatype StatusRsd = StatusRsd(status: u32)

  /** GammaHandlerRsdV0 and, with the same fields, its V1 and V2 successors. */
  datatype GammaRsd = GammaRsd(status: u32, stage: u32, energyValid: u32, energyInLeus: int32)

  /** The signed view of a stored word. */
  function Signed(w: u32): (x: int32)
    ensures I32(x) == U32(w)
  {
    if w >= 0x8000_0000 then (w - 0x1_0000_0000) as int32 else w as int32
  }

  function StatusView(s: RsdStorage): StatusRsd
  {
    StatusRsd(s.w0)
  }

  function GammaView(s: RsdStorage): GammaRsd
  {
    GammaRsd(s.w0, s.w1, s.w2, Signed(s.w3))
  }

  datatype LpaHandler = LpaHandler(
    htype: int32, masterKey: u32, cfgKey: u32, cfgId: u32,
    state: int32, prescaler: int32, version: u32, id: int32,
    has: bool, rsd: RsdStorage)

  /**
   * The default constructor.  The C++ initializer list leaves the union
   * unset; the model fills it with zeros.
   */
  function Default(): (h: LpaHandler)
    ensures PresentCount(h) == 0
  {
    LpaHandler(Unknown, 0xFFFF_FFFF, 0xFFFF_FFFF, 0xFFFF_FFFF,
               Invalid, Unsupported, 0, MaxHandlerIds, false, RsdStorage(0, 0, 0, 0))
  }

  /** The triple that selects one union member. */
  predicate Selects(h: LpaHandler, version: u32, id: int32)
  {
    h.has && h.version == version && h.id == id
  }

  function DgnRsdV0(h: LpaHandler): (r: Option<StatusRsd>)
    ensures r.Some? <==> h.has && h.version == 0 && h.id == Dgn
    ensures r.Some? ==> r.value.status == h.rsd.w0
  {
    if Selects(h, 0, Dgn) then Some(StatusView(h.rsd)) else None
  }

  function GammaRsdV0(h: LpaHandler): (r: Option<GammaRsd>)
    ensures r.Some? <==> h.has && h.version == 0 && h.id == Gamma
    ensures r.Some? ==> r.value.status == h.rsd.w0 && r.value.stage == h.rsd.w1
    ensures r.Some? ==> r.value.energyValid == h.rsd.w2 && I32(r.value.energyInLeus) == U32(h.rsd.w3)
  {
    if Selects(h, 0, Gamma) then Some(GammaView(h.rsd)) else None
  }

  function HipRsdV0(h: LpaHandler): (r: Option<StatusRsd>)
    ensures r.Some? <==> h.has && h.version == 0 && h.id == Hip
    ensures r.Some? ==> r.value.status == h.rsd.w0
  {
    if Selects(h, 0, Hip) then Some(StatusView(h.rsd)) else None
  }

  function MipRsdV0(h: LpaHandler): (r: Option<StatusRsd>)
    ensures r.Some? <==> h.has && h.version == 0 && h.id == Mip
    ensures r.Some? ==> r.value.status == h.rsd.w0
  {
    if Selects(h, 0, Mip) then Some(StatusView(h.rsd)) else None
  }

  function PassthruRsdV0(h: LpaHandler): (r: Option<StatusRsd>)
    ensures r.Some? <==> h.has && h.version == 0 && h.id == PassThru
    ensures r.Some? ==> r.value.status == h.rsd.w0
  {
    if Selects(h, 0, PassThru) then Some(StatusView(h.rsd)) else None
  }

  function GammaRsdV1(h: LpaHandler): (r: Option<GammaRsd>)
    ensures r.Some? <==> h.has && h.version == 1 && h.id == Gamma
    ensures r.Some? ==> r.value.status == h.rsd.w0 && r.value.stage == h.rsd.w1
    ensures r.Some? ==> r.value.energyValid == h.rsd.w2 && I32(r.value.energyInLeus) == U32(h.rsd.w3)
  {
    if Selects(h, 1, Gamma) then Some(GammaView(h.rsd)) else None
  }

  function GammaRsdV2(h: LpaHandler): (r: Option<GammaRsd>)
    ensures r.Some? <==> h.has && h.version == 2 && h.id == Gamma
    ensures r.Some? ==> r.value.status == h.rsd.w0 && r.value.stage == h.rsd.w1
    ensures r.Some? ==> r.value.energyValid == h.rsd.w2 && I32(r.value.energyInLeus) == U32(h.rsd.w3)
  {
    if Selects(h, 2, Gamma) then Some(GammaView(h.rsd)) else None
  }

  /** How many of the seven accessors return a payload. */
  function PresentCount(h: LpaHandler): nat
  {
    (if DgnRsdV0(h).Some? then 1 else 0) + (if GammaRsdV0(h).Some? then 1 else 0) +
    (if HipRsdV0(h).Some? then 1 else 0) + (if MipRsdV0(h).Some? then 1 else 0) +
    (if PassthruRsdV0(h).Some? then 1 else 0) + (if GammaRsdV1(h).Some? then 1 else 0) +
    (if GammaRsdV2(h).Some? then 1 else 0)
  }

  /** At most one accessor yields a payload, and exactly one does for each of the seven triples. */
  lemma AtMostOneRsd(h: LpaHandler)
    ensures PresentCount(h) <= 1
    ensures PresentCount(h) == 1 <==>
      (h.has && ((h.version == 0 && h.id in {Dgn, Gamma, Hip, Mip, PassThru}) ||
                 (h.version in {1, 2} && h.id == Gamma)))
  {
  }

  /** Without summary data, with the ASC handler, or with an RSD version past 2, there is no payload. */
  lemma NoRsdOutsideKnownTriples(h: LpaHandler)
    requires !h.has || h.id == Asc || h.version >= 3
    ensures PresentCount(h) == 0
  {
  }

  /** A default-constructed handler carries no payload and reports the "unset" values. */
  lemma DefaultHasNoRsd()
    ensures PresentCount(Default()) == 0
    ensures TypeName(Default()) == "Unknown" && StateName(Default()) == "Invalid"
    ensures PrescalerName(Default()) == "Unsupported" && HandlerName(Default()) == "Invalid"
  {
  }

  /** The bit pattern of a stored word. */
  function Bits(w: u32): bv32
  {
    w as bv32
  }

  /** `status & Stage_m`; the mask is not part of the shown source and is a parameter. */
  function Stage(r: StatusRsd, stageMask: bv32): (s: bv32)
    ensures s & !stageMask == 0
    ensures s & Bits(r.status) == s
  {
    Bits(r.status) & stageMask
  }

  /** `(status & Gem_Classes_m) >> Gem_Classes_v`, with mask and shift as parameters. */
  function GemClasses(r: StatusRsd, classMask: bv32, shift: nat): (c: bv32)
    requires shift < 32
    ensures (c << shift) & !classMask == 0
    ensures (c << shift) & !Bits(r.status) == 0
  {
    (Bits(r.status) & classMask) >> shift
  }

  function Abs(x: int): nat
  {
    if x < 0 then -x else x
  }

  const HandlerTypeNames: seq<string> := ["Unknown", "Filter", "Monitor"]

  const HandlerIdNames: seq<string> :=
    ["PassThru", "Gamma", "ACD Software Counters", "Minimum Ionizing Particle",
     "Highly Ionizing Particle", "Diagnostic"]

  const RsdStateNames: seq<string> := ["Invalid", "Passed", "Suppressed", "Vetoed", "Leaked", "Ignored"]

  const LeakedPrescalerNames: seq<string> :=
    ["Unsupported", "Input", "Output",
     "Cond00", "Cond01", "Cond02", "Cond03", "Cond04", "Cond05", "Cond06", "Cond07",
     "Cond08", "Cond09", "Cond10", "Cond11", "Cond12", "Cond13", "Cond14", "Cond15",
     "Cond16", "Cond17", "Cond18", "Cond19", "Cond20", "Cond21", "Cond22", "Cond23",
     "Cond24", "Cond25", "Cond26", "Cond27", "Cond28", "Cond29", "Cond30", "Cond31"]

  /** `typeName`: the table entry at `type + |HandlerTypeMin|`, or "Invalid" off the table. */
  function TypeName(h: LpaHandler): (n: string)
    ensures HandlerTypeMin <= h.htype <= HandlerTypeMax ==> n == HandlerTypeNames[h.htype as int + 1]
    ensures n == "Invalid" <==> !(HandlerTypeMin <= h.htype <= HandlerTypeMax)
  {
    var idx := h.htype as int + Abs(HandlerTypeMin as int);
    if 0 <= idx < HandlerTypeCnt then HandlerTypeNames[idx] else "Invalid"
  }

  /**
   * `handlerName`: bounds-checks `id + |HandlerIdMin|` but indexes the table
   * with `id` itself; the two agree because HandlerIdMin is 0.
   */
  function HandlerName(h: LpaHandler): (n: string)
    ensures PassThru <= h.id < MaxHandlerIds ==> n == HandlerIdNames[h.id]
    ensures n == "Invalid" <==> !(PassThru <= h.id < MaxHandlerIds)
  {
    var idx := h.id as int + Abs(HandlerIdMin as int);
    if 0 <= idx < HandlerIdCnt then HandlerIdNames[h.id] else "Invalid"
  }

  /** `stateName`: the INVALID state and every off-table value both read "Invalid". */
  function StateName(h: LpaHandler): (n: string)
    ensures RsdStateMin <= h.state <= Ignored ==> n == RsdStateNames[h.state as int + 1]
    ensures n == "Invalid" <==> !(Passed <= h.state <= Ignored)
  {
    var idx := h.state as int + Abs(RsdStateMin as int);
    if 0 <= idx < RsdStateCnt then RsdStateNames[idx] else "Invalid"
  }

  /** `prescalerName`: 35 entries, Unsupported at -3 up to Cond31 at 31. */
  function PrescalerName(h: LpaHandler): (n: string)
    ensures LeakedPrescalerMin <= h.prescaler <= 31 ==> n == LeakedPrescalerNames[h.prescaler as int + 3]
    ensures n == "Invalid" <==> !(LeakedPrescalerMin <= h.prescaler <= 31)
  {
    var idx := h.prescaler as int + Abs(LeakedPrescalerMin as int);
    if 0 <= idx < LeakedPrescalerCnt then LeakedPrescalerNames[idx] else "Invalid"
  }

  /** No two entries of a name table are equal. */
  predicate Distinct(names: seq<string>)
  {
    forall i, j :: 0 <= i < j < |names| ==> names[i] != names[j]
  }

  /** Distinct handler types get distinct names. */
  lemma TypeNamesDistinct(h1: LpaHandler, h2: LpaHandler)
    requires HandlerTypeMin <= h1.htype <= HandlerTypeMax && HandlerTypeMin <= h2.htype <= HandlerTypeMax
    requires h1.htype != h2.htype
    ensures TypeName(h1) != TypeName(h2)
  {
    assert Distinct(HandlerTypeNames);
  }

  /** Distinct handler identities get distinct names. */
  lemma HandlerNamesDistinct(h1: LpaHandler, h2: LpaHandler)
    requires PassThru <= h1.id < MaxHandlerIds && PassThru <= h2.id < MaxHandlerIds
    requires h1.id != h2.id
    ensures HandlerName(h1) != HandlerName(h2)
  {
    assert Distinct(HandlerIdNames);
  }

  /** Distinct result states get distinct names. */
  lemma StateNamesDistinct(h1: LpaHandler, h2: LpaHandler)
    requires RsdStateMin <= h1.state <= Ignored && RsdStateMin <= h2.state <= Ignored
    requires h1.state != h2.state
    ensures StateName(h1) != StateName(h2)
  {
    assert Distinct(RsdStateNames);
  }

  /** The union's storage: its four words in order. */
  function RsdImage(s: RsdStorage): (r: Bytes)
    ensures |r| == 16
  {
    U32(s.w0) + (U32(s.w1) + (U32(s.w2) + U32(s.w3)))
  }

  function DecRsd(b: Bytes): RsdStorage
    requires |b| == 16
  {
    RsdStorage(DecU32(b[..4]), DecU32(b[4..8]), DecU32(b[8..12]), DecU32(b[12..]))
  }

  lemma RsdRoundTrip(s: RsdStorage)
    ensures DecRsd(RsdImage(s)) == s
  {
    var b := RsdImage(s);
    assert b[..4] == U32(s.w0);
    assert b[4..8] == U32(s.w1);
    assert b[8..12] == U32(s.w2);
    assert b[12..] == U32(s.w3);
    U32RoundTrip(s.w0);
    U32RoundTrip(s.w1);
    U32RoundTrip(s.w2);
    U32RoundTrip(s.w3);
  }

  const HandlerSize: nat := 49

  /** The on-disk record of one handler: every member in declaration order, then the union. */
  function Image(h: LpaHandler): (r: Bytes)
    ensures |r| == HandlerSize
  {
    I32(h.htype) + (U32(h.masterKey) + (U32(h.cfgKey) + (U32(h.cfgId) + (I32(h.state) + (I32(h.prescaler) +
    (U32(h.version) + (I32(h.id) + (Bool(h.has) + RsdImage(h.rsd)))))))))
  }

  function Decode(b: Bytes): LpaHandler
    requires |b| == HandlerSize
  {
    LpaHandler(DecI32(b[..4]), DecU32(b[4..8]), DecU32(b[8..12]), DecU32(b[12..16]),
               DecI32(b[16..20]), DecI32(b[20..24]), DecU32(b[24..28]), DecI32(b[28..32]),
               DecBool(b[32..33]), DecRsd(b[33..]))
  }

  /** A handler record reads back as the handler that was written. */
  lemma RoundTrip(h: LpaHandler)
    ensures Decode(Image(h)) == h
  {
    var b := Image(h);
    assert b[..4] == I32(h.htype);
    assert b[4..8] == U32(h.masterKey);
    assert b[8..12] == U32(h.cfgKey);
    assert b[12..16] == U32(h.cfgId);
    assert b[16..20] == I32(h.state);
    assert b[20..24] == I32(h.prescaler);
    assert b[24..28] == U32(h.version);
    assert b[28..32] == I32(h.id);
    assert b[32..33] == Bool(h.has);
    assert b[33..] == RsdImage(h.rsd);
    I32RoundTrip(h.htype);
    U32RoundTrip(h.masterKey);
    U32RoundTrip(h.cfgKey);
    U32RoundTrip(h.cfgId);
    I32RoundTrip(h.state);
    I32RoundTrip(h.prescaler);
    U32RoundTrip(h.version);
    I32RoundTrip(h.id);
    BoolRoundTrip(h.has);
    RsdRoundTrip(h.rsd);
  }
}
