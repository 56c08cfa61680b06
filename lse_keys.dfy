/**
 * LSE_Keys: the configuration keys recorded with each event.  The LPA variant
 * carries the LATC master and ignore keys and a list of CDM keys; the LCI
 * variant carries the two LATC keys and a script key.  Every key defaults to
 * 0xFFFFFFFF ("no key") and the CDM list to empty.
 */
module Keys {
  import opened Base
  import opened Codec

  // KeysType
  const KeysNone: int32 := -1
  const KeysLpa: int32 := 0
  const KeysLci: int32 := 1
  const NumLSEKeysTypes: int32 := 2

  /** The default of every key argument. */
  const NoKey: u32 := 0xFFFF_FFFF

  datatype LpaKeys = LpaKeys(latcMaster: u32, latcIgnore: u32, cdmKeys: seq<u32>)

  datatype LciKeys = LciKeys(latcMaster: u32, latcIgnore: u32, lciScript: u32)

  /** `LPA_Keys()` with every argument defaulted. */
  function DefaultLpaKeys(): (k: LpaKeys)
    ensures LpaKeysImage(k) == U32(NoKey) + U32(NoKey) + U32(0)
  {
    LpaKeys(NoKey, NoKey, [])
  }

  /** `LCI_Keys()` with every argument defaulted. */
  function DefaultLciKeys(): (k: LciKeys)
    ensures LciKeysImage(k) == U32(NoKey) + U32(NoKey) + U32(NoKey)
  {
    LciKeys(NoKey, NoKey, NoKey)
  }

  /** A list of words back to back. */
  function WordsImage(ws: seq<u32>): (r: Bytes)
    ensures |r| == 4 * |ws|
  {
    if |ws| == 0 then [] else U32(ws[0]) + WordsImage(ws[1..])
  }

  function DecWords(b: Bytes, n: nat): (ws: seq<u32>)
    requires |b| == 4 * n
    ensures |ws| == n
  {
    if n == 0 then [] else [DecU32(b[..4])] + DecWords(b[4..], n - 1)
  }

  /** A word list reads back in the same order. */
  lemma {:induction false} WordsRoundTrip(ws: seq<u32>)
    ensures DecWords(WordsImage(ws), |ws|) == ws
  {
    if |ws| > 0 {
      var b := WordsImage(ws);
      assert b[..4] == U32(ws[0]);
      assert b[4..] == WordsImage(ws[1..]);
      U32RoundTrip(ws[0]);
      WordsRoundTrip(ws[1..]);
    }
  }

  /** The number of CDM keys stored, truncated to an `unsigned` like every count in the format. */
  function KeyCount(k: LpaKeys): (n: u32)
    ensures n <= |k.cdmKeys|
    ensures |k.cdmKeys| < 0x1_0000_0000 ==> n == |k.cdmKeys|
  {
    |k.cdmKeys| % 0x1_0000_0000
  }

  /** LPA keys on disk: master, ignore, the key count, then the keys in list order. */
  function LpaKeysImage(k: LpaKeys): (r: Bytes)
    ensures |r| == 12 + 4 * KeyCount(k)
  {
    U32(k.latcMaster) + (U32(k.latcIgnore) + (U32(KeyCount(k)) + WordsImage(k.cdmKeys[..KeyCount(k)])))
  }

  /** Decodes an LPA keys block whose length must match its count. */
  function DecLpaKeys(b: Bytes): (r: Option<LpaKeys>)
    ensures r.Some? ==> |b| == 12 + 4 * |r.value.cdmKeys|
  {
    if |b| < 12 then None
    else
      var n := DecU32(b[8..12]);
      if |b| != 12 + 4 * n then None
      else Some(LpaKeys(DecU32(b[..4]), DecU32(b[4..8]), DecWords(b[12..], n)))
  }

  /** LPA keys read back with the list in the same order (its first `KeyCount` entries). */
  lemma LpaKeysRoundTrip(k: LpaKeys)
    ensures DecLpaKeys(LpaKeysImage(k)) == Some(k.(cdmKeys := k.cdmKeys[..KeyCount(k)]))
  {
    var n := KeyCount(k);
    var b := LpaKeysImage(k);
    assert b[..4] == U32(k.latcMaster);
    assert b[4..8] == U32(k.latcIgnore);
    assert b[8..12] == U32(n);
    assert b[12..] == WordsImage(k.cdmKeys[..n]);
    U32RoundTrip(k.latcMaster);
    U32RoundTrip(k.latcIgnore);
    U32RoundTrip(n);
    WordsRoundTrip(k.cdmKeys[..n]);
  }

  const LciKeysSize: nat := 12

  function LciKeysImage(k: LciKeys): (r: Bytes)
    ensures |r| == LciKeysSize
  {
    U32(k.latcMaster) + (U32(k.latcIgnore) + U32(k.lciScript))
  }

  function DecLciKeys(b: Bytes): LciKeys
    requires |b| == LciKeysSize
  {
    LciKeys(DecU32(b[..4]), DecU32(b[4..8]), DecU32(b[8..]))
  }

  lemma LciKeysRoundTrip(k: LciKeys)
    ensures DecLciKeys(LciKeysImage(k)) == k
  {
    var b := LciKeysImage(k);
    assert b[..4] == U32(k.latcMaster);
    assert b[4..8] == U32(k.latcIgnore);
    assert b[8..] == U32(k.lciScript);
    U32RoundTrip(k.latcMaster);
    U32RoundTrip(k.latcIgnore);
    U32RoundTrip(k.lciScript);
  }
}
