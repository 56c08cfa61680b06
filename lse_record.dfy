/**
 * The record layout of an .evt file as LSEWriter lays it down and LSEReader
 * takes it apart: the context image, the payload blob, then one or two tagged
 * blocks (`int` tag, `size_t` length, body) carrying the info object and,
 * in the merge tool's records, the keys object.
 *
 * LSEWriter's typed `write` overloads, which differ only in the static type
 * of the info argument, become one operation over the tagged union below.
 */
module Record {
  import opened Base
  import opened Codec
  import Context
  import Ebf
  import Info
  import Keys

  /** The info argument of a typed `write`: which of the four info objects it was given. */
  datatype InfoValue =
    | LpaValue(lpa: Info.LpaInfo)
    | AcdValue(acd: Info.AcdInfo)
    | CalValue(cal: Info.CalInfo)
    | TkrValue(tkr: Info.TkrInfo)

  /** The keys argument of the four-argument `write`. */
  datatype KeysValue =
    | LpaKeysValue(pa: Keys.LpaKeys)
    | LciKeysValue(ci: Keys.LciKeys)

  /** The tag each typed `write` passes on: LPA, LCI_ACD, LCI_CAL or LCI_TKR. */
  function InfoTag(v: InfoValue): (t: int32)
    ensures Info.Lpa <= t < Info.NumLSEInfoTypes
    ensures t == Info.Lpa <==> v.LpaValue?
    ensures t == Info.LciAcd <==> v.AcdValue?
    ensures t == Info.LciCal <==> v.CalValue?
    ensures t == Info.LciTkr <==> v.TkrValue?
  {
    match v
    case LpaValue(_) => Info.Lpa
    case AcdValue(_) => Info.LciAcd
    case CalValue(_) => Info.LciCal
    case TkrValue(_) => Info.LciTkr
  }

  /**
   * The `sizeof(info)` bytes of the info object.  The LCI variants are fixed
   * records; the LPA variant is its fixed part, count and handler records.
   */
  function InfoBody(v: InfoValue): (r: Bytes)
    ensures 0 < |r| < 0x1_0000_0000_0000_0000
  {
    match v
    case LpaValue(x) => Info.LpaBody(x)
    case AcdValue(x) => Info.AcdImage(x)
    case CalValue(x) => Info.CalImage(x)
    case TkrValue(x) => Info.TkrImage(x)
  }

  function KeysTag(k: KeysValue): (t: int32)
    ensures Keys.KeysLpa <= t < Keys.NumLSEKeysTypes
    ensures t == Keys.KeysLpa <==> k.LpaKeysValue?
  {
    if k.LpaKeysValue? then Keys.KeysLpa else Keys.KeysLci
  }

  function KeysBody(k: KeysValue): (r: Bytes)
    ensures 0 < |r| < 0x1_0000_0000_0000_0000
  {
    match k
    case LpaKeysValue(x) => Keys.LpaKeysImage(x)
    case LciKeysValue(x) => Keys.LciKeysImage(x)
  }

  /** What `write(itype, buf, len)` emits: the tag, the length as a 64-bit `size_t`, the body. */
  function BlockImage(tag: int32, body: Bytes): (r: Bytes)
    requires |body| < 0x1_0000_0000_0000_0000
    ensures |r| == 12 + |body| && r[..4] == I32(tag)
  {
    I32(tag) + (U64(|body|) + body)
  }

  /** A record whose info and keys bodies fit the payload buffer the reader decodes them into. */
  predicate Fits(v: InfoValue, k: KeysValue)
  {
    |InfoBody(v)| <= Ebf.Capacity && |KeysBody(k)| <= Ebf.Capacity
  }

  /** A whole record of the typed `write`: context, payload, info block. */
  function RecordImage(ctx: Context.LseContext, p: Bytes, v: InfoValue): (r: Bytes)
    requires |p| <= Ebf.Capacity
  {
    Context.Image(ctx) + (Ebf.Image(p) + BlockImage(InfoTag(v), InfoBody(v)))
  }

  /** The typed record as its context and payload, then its info block. */
  lemma RecordImageParts(ctx: Context.LseContext, p: Bytes, v: InfoValue)
    requires |p| <= Ebf.Capacity
    ensures RecordImage(ctx, p, v) == (Context.Image(ctx) + Ebf.Image(p)) + BlockImage(InfoTag(v), InfoBody(v))
    ensures |RecordImage(ctx, p, v)| == Context.ContextSize + 4 + |p| + 12 + |InfoBody(v)|
  {
  }

  /** A record of the merge tool's four-argument `write`: the typed record, then the keys block. */
  function KeyedImage(ctx: Context.LseContext, p: Bytes, v: InfoValue, k: KeysValue): (r: Bytes)
    requires |p| <= Ebf.Capacity
  {
    RecordImage(ctx, p, v) + BlockImage(KeysTag(k), KeysBody(k))
  }
}
