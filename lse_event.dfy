/**
 * LSE_Event: one decoded event, immutable once built.  Every member is stored
 * as given; the info and keys accessors hand out their member only when the
 * stored tag names that variant.
 */
module Event {
  import opened Base
  import opened Codec
  import Context
  import Info
  import Keys

  /** The ten constructor arguments, kept verbatim; the payload is held by value. */
  datatype LseEvent = LseEvent(
    ctx: Context.LseContext, ebf: Bytes, itype: int32,
    pinfo: Info.LpaInfo, ainfo: Info.AcdInfo, cinfo: Info.CalInfo, tinfo: Info.TkrInfo,
    ktype: int32, pakeys: Keys.LpaKeys, cikeys: Keys.LciKeys)

  function Pinfo(e: LseEvent): (r: Option<Info.LpaInfo>)
    ensures r.Some? <==> e.itype == Info.Lpa
    ensures r.Some? ==> r.value == e.pinfo
  {
    if e.itype == Info.Lpa then Some(e.pinfo) else None
  }

  function Ainfo(e: LseEvent): (r: Option<Info.AcdInfo>)
    ensures r.Some? <==> e.itype == Info.LciAcd
    ensures r.Some? ==> r.value == e.ainfo
  {
    if e.itype == Info.LciAcd then Some(e.ainfo) else None
  }

  function Cinfo(e: LseEvent): (r: Option<Info.CalInfo>)
    ensures r.Some? <==> e.itype == Info.LciCal
    ensures r.Some? ==> r.value == e.cinfo
  {
    if e.itype == Info.LciCal then Some(e.cinfo) else None
  }

  function Tinfo(e: LseEvent): (r: Option<Info.TkrInfo>)
    ensures r.Some? <==> e.itype == Info.LciTkr
    ensures r.Some? ==> r.value == e.tinfo
  {
    if e.itype == Info.LciTkr then Some(e.tinfo) else None
  }

  function Pakeys(e: LseEvent): (r: Option<Keys.LpaKeys>)
    ensures r.Some? <==> e.ktype == Keys.KeysLpa
    ensures r.Some? ==> r.value == e.pakeys
  {
    if e.ktype == Keys.KeysLpa then Some(e.pakeys) else None
  }

  function Cikeys(e: LseEvent): (r: Option<Keys.LciKeys>)
    ensures r.Some? <==> e.ktype == Keys.KeysLci
    ensures r.Some? ==> r.value == e.cikeys
  {
    if e.ktype == Keys.KeysLci then Some(e.cikeys) else None
  }

  /** How many info accessors return their member. */
  function InfoCount(e: LseEvent): nat
  {
    (if Pinfo(e).Some? then 1 else 0) + (if Ainfo(e).Some? then 1 else 0) +
    (if Cinfo(e).Some? then 1 else 0) + (if Tinfo(e).Some? then 1 else 0)
  }

  /** At most one info accessor answers; exactly one for the four known tags, none for NONE or anything else. */
  lemma AtMostOneInfo(e: LseEvent)
    ensures InfoCount(e) <= 1
    ensures InfoCount(e) == 1 <==> Info.Lpa <= e.itype < Info.NumLSEInfoTypes
    ensures e.itype == Info.InfoNone ==> InfoCount(e) == 0
  {
  }

  /** At most one keys accessor answers; none for the NONE tag. */
  lemma AtMostOneKeys(e: LseEvent)
    ensures !(Pakeys(e).Some? && Cikeys(e).Some?)
    ensures Pakeys(e).Some? || Cikeys(e).Some? <==> Keys.KeysLpa <= e.ktype < Keys.NumLSEKeysTypes
    ensures e.ktype == Keys.KeysNone ==> Pakeys(e).None? && Cikeys(e).None?
  {
  }

  /**
   * The accessors give back what the constructor was given: every plain
   * member, and the tagged member its tag selects.
   */
  lemma AccessorsReturnArguments(c: Context.LseContext, b: Bytes, i: int32, pi: Info.LpaInfo, ai: Info.AcdInfo,
                                 ci: Info.CalInfo, ti: Info.TkrInfo, k: int32, pk: Keys.LpaKeys, ck: Keys.LciKeys)
    ensures var e := LseEvent(c, b, i, pi, ai, ci, ti, k, pk, ck);
      e.ctx == c && e.ebf == b && e.itype == i && e.ktype == k &&
      (i == Info.Lpa ==> Pinfo(e) == Some(pi)) && (i == Info.LciAcd ==> Ainfo(e) == Some(ai)) &&
      (i == Info.LciCal ==> Cinfo(e) == Some(ci)) && (i == Info.LciTkr ==> Tinfo(e) == Some(ti)) &&
      (k == Keys.KeysLpa ==> Pakeys(e) == Some(pk)) && (k == Keys.KeysLci ==> Cikeys(e) == Some(ck))
  {
  }
}
