/**
 * The index lines writeMerge reads: an `EVT:` tag followed by the fields
 * `EvtIdx` extracts, separated by whitespace.  Extraction is a run of
 * `operator>>` calls on the line: each string field takes the next run of
 * non-space characters, each number field the next run read as a decimal.
 */
module EvtIndex {
  import opened Base
  import opened Codec

  /** The characters `operator>>` skips: space, tab, newline, vertical tab, form feed, carriage return. */
  predicate IsSpace(c: char)
  {
    c == ' ' || c == '\t' || c == '\n' || c == '\r' || c as int == 11 || c as int == 12
  }

  /** What a string extraction can return: a non-empty run without whitespace. */
  ghost predicate Word(w: string)
  {
    |w| > 0 && forall i :: 0 <= i < |w| ==> !IsSpace(w[i])
  }

  /** The length of the run of non-space characters at the front of `s`. */
  function WordLen(s: string): (n: nat)
    ensures n <= |s|
    ensures forall i :: 0 <= i < n ==> !IsSpace(s[i])
    ensures n < |s| ==> IsSpace(s[n])
  {
    if |s| == 0 || IsSpace(s[0]) then 0 else 1 + WordLen(s[1..])
  }

  /** The successive string extractions from a line: its maximal runs of non-space characters, in order. */
  function Tokens(s: string): (ts: seq<string>)
    ensures forall i :: 0 <= i < |ts| ==> Word(ts[i])
    decreases |s|
  {
    if |s| == 0 then []
    else if IsSpace(s[0]) then Tokens(s[1..])
    else
      var n := WordLen(s);
      [s[..n]] + Tokens(s[n..])
  }

  /** Words joined by single spaces, the way an index line lays out its fields. */
  function Unwords(ts: seq<string>): string
  {
    if |ts| == 0 then "" else if |ts| == 1 then ts[0] else ts[0] + " " + Unwords(ts[1..])
  }

  /** A word followed by a space, or by nothing, is read up to its end. */
  lemma {:induction false} WordLenOfWord(w: string, rest: string)
    requires Word(w) && (|rest| == 0 || IsSpace(rest[0]))
    ensures WordLen(w + rest) == |w|
    decreases |w|
  {
    assert (w + rest)[0] == w[0];
    if |w| > 1 {
      assert (w + rest)[1..] == w[1..] + rest;
      WordLenOfWord(w[1..], rest);
    } else {
      assert (w + rest)[1..] == rest;
    }
  }

  /** A space right after `a` ends the run at the front of `a + b` no later than the end of `a`. */
  lemma {:induction false} WordLenPrefix(a: string, b: string)
    requires |b| > 0 && IsSpace(b[0])
    ensures WordLen(a + b) == WordLen(a)
    decreases |a|
  {
    if |a| == 0 {
      assert a + b == b;
    } else if !IsSpace(a[0]) {
      assert (a + b)[1..] == a[1..] + b;
      WordLenPrefix(a[1..], b);
    }
  }

  /** Splitting at a space: the tokens of `a + " " + b` are those of `a` followed by those of `b`. */
  lemma {:induction false} TokensAppend(a: string, b: string)
    ensures Tokens(a + " " + b) == Tokens(a) + Tokens(b)
    decreases |a|
  {
    var s := a + " " + b;
    if |a| == 0 {
      assert s == " " + b;
      assert s[1..] == b;
    } else if IsSpace(a[0]) {
      assert s[1..] == a[1..] + " " + b;
      TokensAppend(a[1..], b);
    } else {
      assert s == a + (" " + b);
      WordLenPrefix(a, " " + b);
      var n := WordLen(a);
      assert s[..n] == a[..n];
      assert Tokens(s) == [a[..n]] + Tokens(s[n..]);
      assert Tokens(a) == [a[..n]] + Tokens(a[n..]);
      if n == |a| {
        assert s[n..] == " " + b;
        assert s[n..][1..] == b;
        assert a[n..] == [];
      } else {
        assert s[n..] == a[n..] + " " + b;
        TokensAppend(a[n..], b);
      }
    }
  }

  /** Round trip: the tokens of words joined by spaces are those words. */
  lemma {:induction false} TokensUnwords(ts: seq<string>)
    requires forall i :: 0 <= i < |ts| ==> Word(ts[i])
    ensures Tokens(Unwords(ts)) == ts
    decreases |ts|
  {
    if |ts| == 1 {
      WordLenOfWord(ts[0], "");
      assert ts[0] + "" == ts[0];
      assert ts[0][|ts[0]|..] == [];
    } else if |ts| > 1 {
      TokensAppend(ts[0], Unwords(ts[1..]));
      TokensUnwords([ts[0]]);
      TokensUnwords(ts[1..]);
    }
  }

  // ---------------------------------------------------------------------------
  // Numbers

  predicate IsDigit(c: char)
  {
    '0' <= c <= '9'
  }

  /** The value of a run of decimal digits. */
  function DigitsValue(s: string): nat
    requires forall i :: 0 <= i < |s| ==> IsDigit(s[i])
  {
    if |s| == 0 then 0
    else
      assert IsDigit(s[|s| - 1]);
      DigitsValue(s[..|s| - 1]) * 10 + (s[|s| - 1] as int - '0' as int)
  }

  /**
   * A number field: a token of decimal digits whose value fits the field;
   * any other token makes the extraction fail.
   */
  function ParseNum(w: string, bound: nat): (r: Option<nat>)
    ensures r.Some? ==> r.value < bound
  {
    if |w| > 0 && forall i :: 0 <= i < |w| ==> IsDigit(w[i]) then
      var v := DigitsValue(w);
      if v < bound then Some(v) else None
    else None
  }

  /** The decimal text of a number, without sign or leading zeros. */
  function Decimal(n: nat): (s: string)
    ensures |s| > 0 && forall i :: 0 <= i < |s| ==> IsDigit(s[i])
  {
    if n < 10 then [('0' as int + n) as char] else Decimal(n / 10) + [('0' as int + n % 10) as char]
  }

  lemma {:induction false} DecimalValue(n: nat)
    ensures DigitsValue(Decimal(n)) == n
  {
    if n >= 10 {
      var s := Decimal(n);
      assert s[..|s| - 1] == Decimal(n / 10);
      DecimalValue(n / 10);
    }
  }

  /** Round trip: a number written in decimal extracts back as itself. */
  lemma ParseDecimal(n: nat, bound: nat)
    requires n < bound
    ensures ParseNum(Decimal(n), bound) == Some(n)
  {
    DecimalValue(n);
  }

  lemma DecimalIsWord(n: nat)
    ensures Word(Decimal(n))
  {
    var s := Decimal(n);
    forall i | 0 <= i < |s| ensures !IsSpace(s[i]) {
      assert IsDigit(s[i]);
    }
  }

  // ---------------------------------------------------------------------------
  // EvtIdx

  /** The fields `EvtIdx` extracts; the commented-out ones are not part of the line it reads. */
  datatype EvtIdx = EvtIdx(
    tag: string, startedAt: u32, sequence: u64, apid: u32, datagrams: u32,
    oaction: string, caction: string, fileofst: nat, evtfile: string)

  /** `off_t` is a signed 64-bit offset. */
  const OffsetBound: nat := 0x8000_0000_0000_0000

  /**
   * The `EvtIdx` constructor: tag, startedAt, sequence, apid, datagrams,
   * oaction, caction, fileofst and evtfile, the nine leading tokens in that
   * order; a missing token or a number that does not extract makes the
   * line unusable.
   */
  function Parse(line: string): (r: Option<EvtIdx>)
    ensures |Tokens(line)| < 9 ==> r.None?
    ensures r.Some? ==> Word(r.value.tag) && Word(r.value.oaction) && Word(r.value.caction) && Word(r.value.evtfile)
    ensures r.Some? ==> r.value.fileofst < OffsetBound && r.value.tag == Tokens(line)[0]
  {
    var ts := Tokens(line);
    if |ts| < 9 then None
    else
      var a := ParseNum(ts[1], 0x1_0000_0000);
      var s := ParseNum(ts[2], 0x1_0000_0000_0000_0000);
      var p := ParseNum(ts[3], 0x1_0000_0000);
      var d := ParseNum(ts[4], 0x1_0000_0000);
      var o := ParseNum(ts[7], OffsetBound);
      if a.None? || s.None? || p.None? || d.None? || o.None? then None
      else Some(EvtIdx(ts[0], a.value, s.value, p.value, d.value, ts[5], ts[6], o.value, ts[8]))
  }

  /** The index line that lists exactly the fields of `x`. */
  function Format(x: EvtIdx): string
  {
    Unwords([x.tag, Decimal(x.startedAt), Decimal(x.sequence), Decimal(x.apid), Decimal(x.datagrams),
             x.oaction, x.caction, Decimal(x.fileofst), x.evtfile])
  }

  /** Round trip: the fields come back in the order they are laid out, each into its own member. */
  lemma ParseFormat(x: EvtIdx)
    requires Word(x.tag) && Word(x.oaction) && Word(x.caction) && Word(x.evtfile) && x.fileofst < OffsetBound
    ensures Parse(Format(x)) == Some(x)
  {
    var ts := [x.tag, Decimal(x.startedAt), Decimal(x.sequence), Decimal(x.apid), Decimal(x.datagrams),
               x.oaction, x.caction, Decimal(x.fileofst), x.evtfile];
    DecimalIsWord(x.startedAt);
    DecimalIsWord(x.sequence);
    DecimalIsWord(x.apid);
    DecimalIsWord(x.datagrams);
    DecimalIsWord(x.fileofst);
    TokensUnwords(ts);
    ParseDecimal(x.startedAt, 0x1_0000_0000);
    ParseDecimal(x.sequence, 0x1_0000_0000_0000_0000);
    ParseDecimal(x.apid, 0x1_0000_0000);
    ParseDecimal(x.datagrams, 0x1_0000_0000);
    ParseDecimal(x.fileofst, OffsetBound);
  }

  /** Whatever follows the ninth field is never read. */
  lemma ParseIgnoresRest(line: string, rest: string)
    requires |Tokens(line)| >= 9
    ensures Parse(line + " " + rest) == Parse(line)
  {
    TokensAppend(line, rest);
    var ts, us := Tokens(line), Tokens(line + " " + rest);
    assert forall i :: 0 <= i < 9 ==> us[i] == ts[i];
  }

  /** `idxline.find("EVT:") == 0`: the line begins with the event tag. */
  predicate IsEventLine(line: string): (r: bool)
    ensures r ==> |line| >= 4 && forall i :: 0 <= i < 4 ==> !IsSpace(line[i])
  {
    |line| >= 4 && line[..4] == "EVT:"
  }

  /** On an event line the tag field is the first run of characters, which starts with `EVT:`. */
  lemma EventLineTag(line: string)
    requires IsEventLine(line)
    ensures |Tokens(line)| > 0 && |Tokens(line)[0]| >= 4 && Tokens(line)[0][..4] == "EVT:"
  {
    assert !IsSpace(line[0]) && !IsSpace(line[1]) && !IsSpace(line[2]) && !IsSpace(line[3]);
    var n := WordLen(line);
    assert Tokens(line)[0] == line[..n];
  }
}
