/** Byte strings, and the unpadded base64url text they travel as (section 5 of RFC 4648). A byte
    is written as the character of the same code, so a byte string can be given as a literal. */
module Base64 {

  predicate IsBytes(s: string) {
    forall i :: 0 <= i < |s| ==> s[i] as int < 256
  }

  type Bytes = s: string | IsBytes(s)

  datatype Option<+T> = None | Some(value: T)

  // ---- the alphabet ----------------------------------------------------------

  function Digit(v: nat): (c: char)
    requires v < 64
  {
    if v < 26 then 'A' + v as char
    else if v < 52 then 'a' + (v - 26) as char
    else if v < 62 then '0' + (v - 52) as char
    else if v == 62 then '-' else '_'
  }

  /** The decoding table: the standard alphabet, after `-` and `_` are translated into it. */
  function DigitValue(c: char): Option<nat> {
    if 'A' <= c <= 'Z' then Some((c - 'A') as nat)
    else if 'a' <= c <= 'z' then Some((c - 'a') as nat + 26)
    else if '0' <= c <= '9' then Some((c - '0') as nat + 52)
    else if c == '-' || c == '+' then Some(62)
    else if c == '_' || c == '/' then Some(63)
    else None
  }

  predicate IsUrlSafe(c: char) {
    'A' <= c <= 'Z' || 'a' <= c <= 'z' || '0' <= c <= '9' || c == '-' || c == '_'
  }

  lemma DigitDecodes(v: nat)
    requires v < 64
    ensures DigitValue(Digit(v)) == Some(v)
    ensures Digit(v) != '=' && Digit(v) as int < 128
  {
  }

  // ---- encoding --------------------------------------------------------------

  /** `b64`. */
  function Encode(d: Bytes): string {
    if |d| == 0 then ""
    else
      var a := d[0] as int;
      if |d| == 1 then [Digit(a / 4), Digit(a % 4 * 16)]
      else
        var b := d[1] as int;
        if |d| == 2 then [Digit(a / 4), Digit(a % 4 * 16 + b / 16), Digit(b % 16 * 4)]
        else
          var c := d[2] as int;
          Quad(a, b, c) + Encode(d[3..])
  }

  function Quad(a: nat, b: nat, c: nat): (q: string)
    requires a < 256 && b < 256 && c < 256
    ensures |q| == 4
  {
    [Digit(a / 4), Digit(a % 4 * 16 + b / 16), Digit(b % 16 * 4 + c / 64), Digit(c % 64)]
  }

  // ---- decoding --------------------------------------------------------------

  function Padding(length: nat): string {
    seq((4 - length % 4) % 4, _ => '=')
  }

  function Byte(n: nat): (c: char)
    requires n < 256
    ensures c as int == n
  {
    n as char
  }

  /** The scanner behind `base64.b64decode`, outside its strict mode: characters outside the
      alphabet are skipped, and padding that completes a group ends the scan. `quad` is the
      position in the group of four, `left` the bits carried over, `pads` the padding seen. */
  function Scan(text: string, quad: nat, left: nat, pads: nat): Option<Bytes>
    requires quad < 4
    requires quad == 0 ==> left == 0
    requires quad == 1 ==> left < 64
    requires quad == 2 ==> left < 16
    requires quad == 3 ==> left < 4
  {
    if text == "" then if quad == 0 then Some("") else None
    else if text[0] == '=' then
      if quad >= 2 && quad + pads + 1 >= 4 then Some("")
      else Scan(text[1..], quad, left, if quad >= 2 then pads + 1 else pads)
    else
      match DigitValue(text[0])
      case None => Scan(text[1..], quad, left, pads)
      case Some(v) =>
        if quad == 0 then Scan(text[1..], 1, v, 0)
        else if quad == 1 then Prepend(Byte(left * 4 + v / 16), Scan(text[1..], 2, v % 16, 0))
        else if quad == 2 then Prepend(Byte(left * 16 + v / 4), Scan(text[1..], 3, v % 4, 0))
        else Prepend(Byte(left * 64 + v), Scan(text[1..], 0, 0, 0))
  }

  function Prepend(c: char, rest: Option<Bytes>): Option<Bytes>
    requires c as int < 256
  {
    if rest.None? then None else Some([c] + rest.value)
  }

  /** `unb64`; None where it raises. Text outside ASCII is refused before it is scanned. */
  function Decode(text: string): Option<Bytes> {
    if exists i :: 0 <= i < |text| && text[i] as int >= 128 then None
    else Scan(text + Padding(|text|), 0, 0, 0)
  }

  // ---- the round trip --------------------------------------------------------

  lemma ScanDigit(v: nat, rest: string, quad: nat, left: nat, pads: nat)
    requires v < 64 && quad < 4
    requires quad == 0 ==> left == 0
    requires quad == 1 ==> left < 64
    requires quad == 2 ==> left < 16
    requires quad == 3 ==> left < 4
    ensures Scan([Digit(v)] + rest, quad, left, pads)
         == if quad == 0 then Scan(rest, 1, v, 0)
            else if quad == 1 then Prepend(Byte(left * 4 + v / 16), Scan(rest, 2, v % 16, 0))
            else if quad == 2 then Prepend(Byte(left * 16 + v / 4), Scan(rest, 3, v % 4, 0))
            else Prepend(Byte(left * 64 + v), Scan(rest, 0, 0, 0))
  {
    DigitDecodes(v);
    assert ([Digit(v)] + rest)[1..] == rest;
  }

  lemma ScanTwo(a: nat, rest: string, pads: nat, tail: nat)
    requires a < 256 && tail < 16
    ensures Scan([Digit(a / 4)] + ([Digit(a % 4 * 16 + tail)] + rest), 0, 0, pads)
         == Prepend(Byte(a), Scan(rest, 2, tail, 0))
  {
    ScanDigit(a / 4, [Digit(a % 4 * 16 + tail)] + rest, 0, 0, pads);
    ScanDigit(a % 4 * 16 + tail, rest, 1, a / 4, 0);
  }

  lemma ScanPadding(left: nat)
    requires left < 16
    ensures Scan("==", 2, left, 0) == Some("")
    ensures left < 4 ==> Scan("=", 3, left, 0) == Some("")
  {
    assert "=="[1..] == "=";
    assert Scan("=", 2, left, 1) == Some("");
  }

  lemma ScanOneByte(a: nat, pads: nat)
    requires a < 256
    ensures Scan([Digit(a / 4)] + ([Digit(a % 4 * 16)] + "=="), 0, 0, pads) == Prepend(Byte(a), Some(""))
  {
    assert Digit(a % 4 * 16) == Digit(a % 4 * 16 + 0);
    ScanTwo(a, "==", pads, 0);
    ScanPadding(0);
  }

  lemma ScanTwoBytes(a: nat, b: nat, pads: nat)
    requires a < 256 && b < 256
    ensures Scan([Digit(a / 4)] + ([Digit(a % 4 * 16 + b / 16)] + ([Digit(b % 16 * 4)] + "=")), 0, 0, pads)
         == Prepend(Byte(a), Prepend(Byte(b), Some("")))
  {
    ScanTwo(a, [Digit(b % 16 * 4)] + "=", pads, b / 16);
    ScanDigit(b % 16 * 4, "=", 2, b / 16, 0);
    ScanPadding(0);
  }

  lemma Unroll(q: string, more: string)
    requires |q| == 4
    ensures q + more == [q[0]] + ([q[1]] + ([q[2]] + ([q[3]] + more)))
  {
  }

  lemma ScanLastTwo(w: nat, x: nat, left: nat, more: string)
    requires w < 64 && x < 64 && left < 16
    ensures Scan([Digit(w)] + ([Digit(x)] + more), 2, left, 0)
         == Prepend(Byte(left * 16 + w / 4), Prepend(Byte(w % 4 * 64 + x), Scan(more, 0, 0, 0)))
  {
    ScanDigit(w, [Digit(x)] + more, 2, left, 0);
    ScanDigit(x, more, 3, w % 4, 0);
  }

  lemma Regroup(b: nat, c: nat)
    requires b < 256 && c < 256
    ensures var w := b % 16 * 4 + c / 64; w < 64 && b / 16 * 16 + w / 4 == b && w % 4 * 64 + c % 64 == c
  {
  }

  lemma ScanFour(q: string, a: nat, tail: nat, w: nat, x: nat, more: string, pads: nat)
    requires a < 256 && tail < 16 && w < 64 && x < 64
    requires q == [Digit(a / 4), Digit(a % 4 * 16 + tail), Digit(w), Digit(x)]
    ensures Scan(q + more, 0, 0, pads)
         == Prepend(Byte(a), Prepend(Byte(tail * 16 + w / 4), Prepend(Byte(w % 4 * 64 + x), Scan(more, 0, 0, 0))))
  {
    Unroll(q, more);
    ScanTwo(a, [Digit(w)] + ([Digit(x)] + more), pads, tail);
    ScanLastTwo(w, x, tail, more);
  }

  lemma ScanThreeBytes(a: nat, b: nat, c: nat, more: string, pads: nat)
    requires a < 256 && b < 256 && c < 256
    ensures Scan(Quad(a, b, c) + more, 0, 0, pads)
         == Prepend(Byte(a), Prepend(Byte(b), Prepend(Byte(c), Scan(more, 0, 0, 0))))
  {
    Regroup(b, c);
    ScanFour(Quad(a, b, c), a, b / 16, b % 16 * 4 + c / 64, c % 64, more, pads);
  }

  /** Encoded text with the padding that decoding restores. */
  function Padded(d: Bytes): string {
    Encode(d) + Padding(|Encode(d)|)
  }

  lemma PaddedShapes(d: Bytes)
    ensures |d| == 0 ==> Padded(d) == ""
    ensures |d| == 1 ==> Padded(d) == [Digit(d[0] as int / 4)] + ([Digit(d[0] as int % 4 * 16)] + "==")
    ensures |d| == 2 ==> (var a, b := d[0] as int, d[1] as int;
      Padded(d) == [Digit(a / 4)] + ([Digit(a % 4 * 16 + b / 16)] + ([Digit(b % 16 * 4)] + "=")))
    ensures |d| >= 3 ==> Padded(d) == Quad(d[0] as int, d[1] as int, d[2] as int) + Padded(d[3..])
  {
  }

  /** Scanning what was encoded, with the padding restored, gives the bytes back. */
  lemma {:induction false} ScanInvertsEncode(d: Bytes, pads: nat)
    ensures Scan(Padded(d), 0, 0, pads) == Some(d)
  {
    PaddedShapes(d);
    if |d| == 0 {
    } else if |d| == 1 {
      ScanOneByte(d[0] as int, pads);
      assert d == [d[0]] + "";
    } else if |d| == 2 {
      ScanTwoBytes(d[0] as int, d[1] as int, pads);
      assert d == [d[0]] + ([d[1]] + "");
    } else {
      ScanThreeBytes(d[0] as int, d[1] as int, d[2] as int, Padded(d[3..]), pads);
      ScanInvertsEncode(d[3..], 0);
      assert d == [d[0]] + ([d[1]] + ([d[2]] + d[3..]));
    }
  }

  /** Encoded text stays inside the alphabet. */
  lemma {:induction false} EncodedAlphabet(d: Bytes)
    ensures forall i :: 0 <= i < |Encode(d)| ==> IsUrlSafe(Encode(d)[i])
  {
    if |d| > 2 {
      EncodedAlphabet(d[3..]);
    }
  }

  /** `unb64(b64(x)) == x`, so that equal texts mean equal bytes. */
  lemma DecodeInvertsEncode(d: Bytes)
    ensures Decode(Encode(d)) == Some(d)
  {
    EncodedAlphabet(d);
    ScanInvertsEncode(d, 0);
  }

  lemma EncodeInjective(d: Bytes, e: Bytes)
    requires Encode(d) == Encode(e)
    ensures d == e
  {
    DecodeInvertsEncode(d);
    DecodeInvertsEncode(e);
  }
}
