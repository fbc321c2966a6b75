/**
 * Base64 with the standard alphabet and '=' padding (RFC 4648, section 4),
 * as Go's `encoding/base64.StdEncoding` encodes and decodes it: the decoder
 * skips '\r' and '\n', wants whole four-character quanta, allows padding
 * only in the last quantum, and ignores the unused low bits of a padded
 * quantum.
 */
module Base64 {
  import opened Wrappers

  newtype byte = x: int | 0 <= x < 256

  function IndexChar(i: nat): (c: char)
    requires i < 64
  {
    if i < 26 then ('A' as int + i) as char
    else if i < 52 then ('a' as int + (i - 26)) as char
    else if i < 62 then ('0' as int + (i - 52)) as char
    else if i == 62 then '+'
    else '/'
  }

  function CharIndex(c: char): (r: Option<nat>)
    ensures r.Some? ==> r.value < 64 && IndexChar(r.value) == c
  {
    if 'A' <= c <= 'Z' then Some(c as int - 'A' as int)
    else if 'a' <= c <= 'z' then Some(c as int - 'a' as int + 26)
    else if '0' <= c <= '9' then Some(c as int - '0' as int + 52)
    else if c == '+' then Some(62)
    else if c == '/' then Some(63)
    else None
  }

  lemma CharIndexChar(i: nat)
    requires i < 64
    ensures CharIndex(IndexChar(i)) == Some(i)
  {
  }

  predicate InAlphabet(c: char) { CharIndex(c).Some? }

  /** Alphabet characters are neither padding nor line breaks. */
  predicate Plain(c: char) { InAlphabet(c) && c != '=' && c != '\n' && c != '\r' }

  lemma PlainIndexChar(i: nat)
    requires i < 64
    ensures CharIndex(IndexChar(i)) == Some(i) && Plain(IndexChar(i))
  {
  }

  /** base64.StdEncoding.EncodedLen */
  function EncodedLen(n: nat): nat { (n + 2) / 3 * 4 }

  /** base64.StdEncoding.DecodedLen */
  function DecodedLen(n: nat): nat { n / 4 * 3 }

  function EncodeGroup(b0: byte, b1: byte, b2: byte): (r: string)
    ensures |r| == 4 && Plain(r[0]) && Plain(r[1]) && Plain(r[2]) && Plain(r[3])
  {
    var x0, x1, x2 := b0 as int, b1 as int, b2 as int;
    var i0, i1, i2, i3 := x0 / 4, (x0 % 4) * 16 + x1 / 16, (x1 % 16) * 4 + x2 / 64, x2 % 64;
    PlainIndexChar(i0); PlainIndexChar(i1); PlainIndexChar(i2); PlainIndexChar(i3);
    [IndexChar(i0), IndexChar(i1), IndexChar(i2), IndexChar(i3)]
  }

  function EncodeTail2(b0: byte, b1: byte): (r: string)
    ensures |r| == 4 && r[3] == '=' && Plain(r[0]) && Plain(r[1]) && Plain(r[2])
  {
    var x0, x1 := b0 as int, b1 as int;
    var i0, i1, i2 := x0 / 4, (x0 % 4) * 16 + x1 / 16, (x1 % 16) * 4;
    PlainIndexChar(i0); PlainIndexChar(i1); PlainIndexChar(i2);
    [IndexChar(i0), IndexChar(i1), IndexChar(i2), '=']
  }

  function EncodeTail1(b0: byte): (r: string)
    ensures |r| == 4 && r[2] == '=' && r[3] == '=' && Plain(r[0]) && Plain(r[1])
  {
    var x0 := b0 as int;
    var i0, i1 := x0 / 4, (x0 % 4) * 16;
    PlainIndexChar(i0); PlainIndexChar(i1);
    [IndexChar(i0), IndexChar(i1), '=', '=']
  }

  /** base64.StdEncoding.EncodeToString */
  function Encode(b: seq<byte>): (r: string)
    ensures |r| == EncodedLen(|b|) && |r| % 4 == 0
    ensures '\n' !in r && '\r' !in r
    decreases |b|
  {
    if |b| == 0 then ""
    else if |b| == 1 then EncodeTail1(b[0])
    else if |b| == 2 then EncodeTail2(b[0], b[1])
    else
      var g, rest := EncodeGroup(b[0], b[1], b[2]), Encode(b[3..]);
      assert EncodedLen(|b|) == 4 + EncodedLen(|b| - 3);
      Mod4Step(|rest|);
      assert '\n' !in g && '\r' !in g;
      g + rest
  }

  /** The decoder's view of its input: every '\r' and '\n' removed. */
  function StripNewlines(s: string): (r: string)
    ensures ('\n' !in s && '\r' !in s) ==> r == s
  {
    if s == [] then []
    else if s[0] == '\n' || s[0] == '\r' then StripNewlines(s[1..])
    else [s[0]] + StripNewlines(s[1..])
  }

  function DecodeGroup(i0: nat, i1: nat, i2: nat, i3: nat): (r: seq<byte>)
    requires i0 < 64 && i1 < 64 && i2 < 64 && i3 < 64
    ensures |r| == 3
  {
    [(i0 * 4 + i1 / 16) as byte, ((i1 % 16) * 16 + i2 / 4) as byte, ((i2 % 4) * 64 + i3) as byte]
  }

  /** A quantum that is not the last one: four alphabet characters. */
  function DecodeFull(q0: char, q1: char, q2: char, q3: char): (r: Result<seq<byte>>)
    ensures r.Ok? ==> |r.value| == 3
    ensures r.Err? ==> r.error == CorruptBase64
  {
    match (CharIndex(q0), CharIndex(q1), CharIndex(q2), CharIndex(q3))
    case (Some(i0), Some(i1), Some(i2), Some(i3)) => Ok(DecodeGroup(i0, i1, i2, i3))
    case _ => Err(CorruptBase64)
  }

  /** The last quantum, which may end in "=" or "==". */
  function DecodeLast(q0: char, q1: char, q2: char, q3: char): (r: Result<seq<byte>>)
    ensures r.Ok? ==> 1 <= |r.value| <= 3
    ensures r.Err? ==> r.error == CorruptBase64
  {
    if q2 == '=' && q3 == '=' then
      match (CharIndex(q0), CharIndex(q1))
      case (Some(i0), Some(i1)) => Ok(DecodeGroup(i0, i1, 0, 0)[..1])
      case _ => Err(CorruptBase64)
    else if q3 == '=' then
      match (CharIndex(q0), CharIndex(q1), CharIndex(q2))
      case (Some(i0), Some(i1), Some(i2)) => Ok(DecodeGroup(i0, i1, i2, 0)[..2])
      case _ => Err(CorruptBase64)
    else DecodeFull(q0, q1, q2, q3)
  }

  function DecodeQuanta(t: string): (r: Result<seq<byte>>)
    requires |t| % 4 == 0
    ensures r.Ok? ==> |r.value| <= DecodedLen(|t|)
    ensures r.Err? ==> r.error == CorruptBase64
    decreases |t|
  {
    if t == [] then Ok([])
    else if |t| == 4 then DecodeLast(t[0], t[1], t[2], t[3])
    else
      var head := DecodeFull(t[0], t[1], t[2], t[3]);
      var tail := DecodeQuanta(t[4..]);
      if head.Err? then head
      else if tail.Err? then tail
      else
        assert DecodedLen(|t|) == 3 + DecodedLen(|t| - 4);
        Ok(head.value + tail.value)
  }

  /**
   * base64.StdEncoding.Decode: the decoded bytes, never more than
   * DecodedLen of the input, or CorruptBase64.
   */
  function Decode(s: string): (r: Result<seq<byte>>)
    ensures r.Ok? ==> |r.value| <= DecodedLen(|StripNewlines(s)|)
    ensures r.Err? ==> r.error == CorruptBase64
  {
    var t := StripNewlines(s);
    if |t| % 4 != 0 then Err(CorruptBase64) else DecodeQuanta(t)
  }

  lemma GroupRoundTrip(b0: byte, b1: byte, b2: byte)
    ensures var e := EncodeGroup(b0, b1, b2);
      DecodeFull(e[0], e[1], e[2], e[3]) == Ok([b0, b1, b2])
  {
    var x0, x1, x2 := b0 as int, b1 as int, b2 as int;
    var i0, i1, i2, i3 := x0 / 4, (x0 % 4) * 16 + x1 / 16, (x1 % 16) * 4 + x2 / 64, x2 % 64;
    PlainIndexChar(i0); PlainIndexChar(i1); PlainIndexChar(i2); PlainIndexChar(i3);
    assert i0 * 4 + i1 / 16 == x0;
    assert (i1 % 16) * 16 + i2 / 4 == x1;
    assert (i2 % 4) * 64 + i3 == x2;
    var d := DecodeGroup(i0, i1, i2, i3);
    assert d[0] == b0 && d[1] == b1 && d[2] == b2;
  }

  lemma Tail2RoundTrip(b0: byte, b1: byte)
    ensures var e := EncodeTail2(b0, b1);
      DecodeLast(e[0], e[1], e[2], e[3]) == Ok([b0, b1])
  {
    var x0, x1 := b0 as int, b1 as int;
    var i0, i1, i2 := x0 / 4, (x0 % 4) * 16 + x1 / 16, (x1 % 16) * 4;
    PlainIndexChar(i0); PlainIndexChar(i1); PlainIndexChar(i2);
    assert i0 * 4 + i1 / 16 == x0;
    assert (i1 % 16) * 16 + i2 / 4 == x1;
    var e := EncodeTail2(b0, b1);
    assert e[0] == IndexChar(i0) && e[1] == IndexChar(i1) && e[2] == IndexChar(i2);
    var d := DecodeGroup(i0, i1, i2, 0);
    assert d[0] == b0 && d[1] == b1;
    assert DecodeLast(e[0], e[1], e[2], e[3]) == Ok(d[..2]);
    assert d[..2] == [b0, b1];
  }

  lemma Tail1RoundTrip(b0: byte)
    ensures var e := EncodeTail1(b0);
      DecodeLast(e[0], e[1], e[2], e[3]) == Ok([b0])
  {
    var x0 := b0 as int;
    var i0, i1 := x0 / 4, (x0 % 4) * 16;
    PlainIndexChar(i0); PlainIndexChar(i1);
    assert i0 * 4 + i1 / 16 == x0;
    var e := EncodeTail1(b0);
    assert e[0] == IndexChar(i0) && e[1] == IndexChar(i1);
    var d := DecodeGroup(i0, i1, 0, 0);
    assert d[0] == b0;
    assert DecodeLast(e[0], e[1], e[2], e[3]) == Ok(d[..1]);
    assert d[..1] == [b0];
  }

  /** A leading full quantum decodes on its own, ahead of the rest. */
  lemma DecodeQuantaCons(t: string)
    requires |t| % 4 == 0 && |t| > 4
    requires DecodeFull(t[0], t[1], t[2], t[3]).Ok? && DecodeQuanta(t[4..]).Ok?
    ensures DecodeQuanta(t) == Ok(DecodeFull(t[0], t[1], t[2], t[3]).value + DecodeQuanta(t[4..]).value)
  {
  }

  /** The same, for a quantum and a rest given separately. */
  lemma DecodeQuantaAppend(g: string, rest: string, x: seq<byte>, y: seq<byte>)
    requires |g| == 4 && |rest| % 4 == 0 && rest != []
    requires DecodeFull(g[0], g[1], g[2], g[3]) == Ok(x) && DecodeQuanta(rest) == Ok(y)
    ensures |g + rest| % 4 == 0 && DecodeQuanta(g + rest) == Ok(x + y)
  {
    var t := g + rest;
    assert t[4..] == rest;
    assert t[0] == g[0] && t[1] == g[1] && t[2] == g[2] && t[3] == g[3];
    Mod4Step(|rest|);
    DecodeQuantaCons(t);
  }

  lemma Mod4Step(n: nat)
    requires n % 4 == 0
    ensures (n + 4) % 4 == 0
  {
  }

  lemma QuantaRoundTrip3(b: seq<byte>)
    requires |b| == 3
    ensures |Encode(b)| % 4 == 0 && DecodeQuanta(Encode(b)) == Ok(b)
  {
    var g := EncodeGroup(b[0], b[1], b[2]);
    assert b[3..] == [];
    assert Encode(b) == g;
    GroupRoundTrip(b[0], b[1], b[2]);
    assert DecodeLast(g[0], g[1], g[2], g[3]) == DecodeFull(g[0], g[1], g[2], g[3]);
    assert b == [b[0], b[1], b[2]];
  }

  lemma QuantaRoundTripStep(b: seq<byte>)
    requires |b| > 3
    requires DecodeQuanta(Encode(b[3..])) == Ok(b[3..])
    ensures DecodeQuanta(Encode(b)) == Ok(b)
  {
    var g := EncodeGroup(b[0], b[1], b[2]);
    var rest := Encode(b[3..]);
    assert Encode(b) == g + rest;
    GroupRoundTrip(b[0], b[1], b[2]);
    DecodeQuantaAppend(g, rest, [b[0], b[1], b[2]], b[3..]);
    SplitFirst3(b);
  }

  lemma SplitFirst3(b: seq<byte>)
    requires |b| >= 3
    ensures [b[0], b[1], b[2]] + b[3..] == b
  {
  }

  lemma {:induction false} QuantaRoundTrip(b: seq<byte>)
    ensures |Encode(b)| % 4 == 0
    ensures DecodeQuanta(Encode(b)) == Ok(b)
    decreases |b|
  {
    if |b| == 1 {
      Tail1RoundTrip(b[0]);
      assert [b[0]] == b;
    } else if |b| == 2 {
      Tail2RoundTrip(b[0], b[1]);
      assert [b[0], b[1]] == b;
    } else if |b| == 3 {
      QuantaRoundTrip3(b);
    } else if |b| > 3 {
      QuantaRoundTrip(b[3..]);
      QuantaRoundTripStep(b);
    }
  }

  /** Decoding what was encoded gives back the bytes (RFC 4648, section 4). */
  lemma DecodeEncode(b: seq<byte>)
    ensures Decode(Encode(b)) == Ok(b)
  {
    QuantaRoundTrip(b);
  }

  lemma EncodedLen32()
    ensures EncodedLen(32) == 44 && DecodedLen(44) == 33
  {
  }
}
