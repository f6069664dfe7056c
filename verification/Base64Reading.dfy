/** What decoding base64url gives for any text there is, canonical or not: which letters it knows, what
    it passes over, and which bytes it reads. Keys and tokens arrive as text, so these are the texts
    under which one key can arrive. */
module Base64Readings {
  import opened Base64
  import opened Wires

  /** A letter of section 5 of RFC 4648, or of the two its section 4 has in their place. */
  ghost predicate Stands(c: char, v: nat) {
    && v < 64 && |ALPHABET| == 64
    && (c == ALPHABET[v] || (v == 62 && c == '+') || (v == 63 && c == '/'))
  }

  lemma LettersRead(c: char, v: nat)
    ensures DigitValue(c) == Some(v) <==> Stands(c, v)
  {
    Letters();
    if v < 64 {
      DigitIsLetter(v);
    }
  }

  predicate AllLetters(text: string) {
    forall i :: 0 <= i < |text| ==> DigitValue(text[i]).Some?
  }

  /** In ASCII, and neither a letter nor padding. */
  predicate AllNoise(text: string) {
    forall i :: 0 <= i < |text| ==> DigitValue(text[i]).None? && text[i] != '=' && text[i] as int < 128
  }

  // ---- what is passed over ------------------------------------------------------------------------

  ghost predicate Carries(quad: nat, left: nat) {
    && quad < 4 && (quad == 0 ==> left == 0) && (quad == 1 ==> left < 64)
    && (quad == 2 ==> left < 16) && (quad == 3 ==> left < 4)
  }

  lemma {:induction false} ScanPasses(noise: string, b: string, quad: nat, left: nat, pads: nat)
    requires AllNoise(noise) && Carries(quad, left)
    ensures Base64.Scan(noise + b, quad, left, pads) == Base64.Scan(b, quad, left, pads)
  {
    if noise == "" {
      assert noise + b == b;
    } else {
      assert (noise + b)[1..] == noise[1..] + b;
      ScanPasses(noise[1..], b, quad, left, pads);
    }
  }

  lemma ScanLetter(c: char, rest: string, quad: nat, left: nat, pads: nat)
    requires DigitValue(c).Some? && Carries(quad, left)
    ensures var v := DigitValue(c).value;
            && v < 64
            && Base64.Scan([c] + rest, quad, left, pads)
               == if quad == 0 then Base64.Scan(rest, 1, v, 0)
                  else if quad == 1 then Prepend(Byte(left * 4 + v / 16), Base64.Scan(rest, 2, v % 16, 0))
                  else if quad == 2 then Prepend(Byte(left * 16 + v / 4), Base64.Scan(rest, 3, v % 4, 0))
                  else Prepend(Byte(left * 64 + v), Base64.Scan(rest, 0, 0, 0))
  {
    assert ([c] + rest)[1..] == rest;
  }

  lemma ScanOther(c: char, rest: string, quad: nat, left: nat, pads: nat)
    requires DigitValue(c).None? && Carries(quad, left)
    ensures Base64.Scan([c] + rest, quad, left, pads)
         == if c != '=' then Base64.Scan(rest, quad, left, pads)
            else if quad >= 2 && quad + pads + 1 >= 4 then Some("")
            else Base64.Scan(rest, quad, left, if quad >= 2 then pads + 1 else pads)
  {
    assert ([c] + rest)[1..] == rest;
  }

  lemma {:induction false} ScanPassesWithin(a: string, noise: string, b: string, quad: nat, left: nat, pads: nat)
    requires AllNoise(noise) && Carries(quad, left)
    ensures Base64.Scan(a + (noise + b), quad, left, pads) == Base64.Scan(a + b, quad, left, pads)
    decreases |a|
  {
    if a == "" {
      assert a + (noise + b) == noise + b && a + b == b;
      ScanPasses(noise, b, quad, left, pads);
    } else {
      var c, s, t := a[0], a[1..] + (noise + b), a[1..] + b;
      assert a + (noise + b) == [c] + s && a + b == [c] + t;
      if DigitValue(c).Some? {
        ScanLetter(c, s, quad, left, pads);
        ScanLetter(c, t, quad, left, pads);
        var v := DigitValue(c).value;
        ScanPassesWithin(a[1..], noise, b, (quad + 1) % 4, LeftOver(quad, v), 0);
      } else {
        ScanOther(c, s, quad, left, pads);
        ScanOther(c, t, quad, left, pads);
        ScanPassesWithin(a[1..], noise, b, quad, left, if c == '=' && quad >= 2 then pads + 1 else pads);
      }
    }
  }

  /** The bits carried on after a letter. */
  function LeftOver(quad: nat, v: nat): nat {
    if quad == 0 then v else if quad == 1 then v % 16 else if quad == 2 then v % 4 else 0
  }

  /** Characters outside the alphabet are passed over wherever they stand, as long as they do not
      change how much padding the text is given. */
  lemma NoiseIsPassedOver(a: string, noise: string, b: string)
    requires AllNoise(noise) && |noise| % 4 == 0
    ensures Decode(a + (noise + b)) == Decode(a + b)
  {
    var s, t := a + (noise + b), a + b;
    assert Padding(|s|) == Padding(|t|);
    assert s + Padding(|s|) == a + (noise + (b + Padding(|s|))) && t + Padding(|t|) == a + (b + Padding(|t|));
    ScanPassesWithin(a, noise, b + Padding(|s|), 0, 0, 0);
    if i :| 0 <= i < |t| && t[i] as int >= 128 {
      assert s[if i < |a| then i else i + |noise|] == t[i];
    }
    if i :| 0 <= i < |s| && s[i] as int >= 128 {
      assert i < |a| || i >= |a| + |noise|;
      assert t[if i < |a| then i else i - |noise|] == s[i];
    }
  }

  // ---- what is read ---------------------------------------------------------------------------------

  /** How far the value of a letter may exceed the six bits it stands for: not at all, but for the bits
      of the last one that run over the last byte. */
  function Slack(b: Bytes, j: nat): nat {
    if 6 * j + 6 <= 8 * |b| then 1 else if 6 * j + 4 == 8 * |b| then 4 else 16
  }

  ghost predicate ReadFrom(b: Bytes, text: string, j: nat)
    requires j < |text|
  {
    && 6 * j < 8 * |b| && DigitValue(text[j]).Some?
    && Sextet(b, j) <= DigitValue(text[j]).value < Sextet(b, j) + Slack(b, j)
  }

  lemma ScanPair(w: char, x: char, rest: string, pads: nat)
    requires DigitValue(w).Some? && DigitValue(x).Some?
    ensures var v, u := DigitValue(w).value, DigitValue(x).value;
            && v < 64 && u < 64
            && Base64.Scan([w] + ([x] + rest), 0, 0, pads)
               == Prepend(Byte(v * 4 + u / 16), Base64.Scan(rest, 2, u % 16, 0))
  {
    ScanLetter(w, [x] + rest, 0, 0, pads);
    ScanLetter(x, rest, 1, DigitValue(w).value, 0);
  }

  /** Four letters: the values v, u, t and s. */
  ghost predicate Spell(text: string, v: nat, u: nat, t: nat, s: nat) {
    && |text| >= 4 && v < 64 && u < 64 && t < 64 && s < 64
    && DigitValue(text[0]) == Some(v) && DigitValue(text[1]) == Some(u)
    && DigitValue(text[2]) == Some(t) && DigitValue(text[3]) == Some(s)
  }

  /** The three bytes they spell. */
  function Three(v: nat, u: nat, t: nat, s: nat): (b: Bytes)
    requires v < 64 && u < 64 && t < 64 && s < 64
    ensures |b| == 3
  {
    [Byte(v * 4 + u / 16), Byte(u % 16 * 16 + t / 4), Byte(t % 4 * 64 + s)]
  }

  lemma ScanGroup(text: string, rest: string, v: nat, u: nat, t: nat, s: nat, pads: nat)
    requires Spell(text, v, u, t, s)
    ensures Base64.Scan([text[0]] + ([text[1]] + ([text[2]] + ([text[3]] + rest))), 0, 0, pads)
         == Prepend(Byte(v * 4 + u / 16), Prepend(Byte(u % 16 * 16 + t / 4),
              Prepend(Byte(t % 4 * 64 + s), Base64.Scan(rest, 0, 0, 0))))
  {
    ScanPair(text[0], text[1], [text[2]] + ([text[3]] + rest), pads);
    ScanLetter(text[2], [text[3]] + rest, 2, u % 16, 0);
    ScanLetter(text[3], rest, 3, t % 4, 0);
  }

  lemma PrependThree(v: nat, u: nat, t: nat, s: nat, rest: Option<Bytes>)
    requires v < 64 && u < 64 && t < 64 && s < 64
    ensures Prepend(Byte(v * 4 + u / 16), Prepend(Byte(u % 16 * 16 + t / 4), Prepend(Byte(t % 4 * 64 + s), rest)))
         == if rest.None? then None else Some(Three(v, u, t, s) + rest.value)
  {
    if rest.Some? {
      var x, y, z := Byte(v * 4 + u / 16), Byte(u % 16 * 16 + t / 4), Byte(t % 4 * 64 + s);
      assert [x] + ([y] + ([z] + rest.value)) == [x, y, z] + rest.value;
    }
  }

  /** The text spells the bytes, four letters to three; bits over at the end do not matter. */
  ghost predicate SpellsAll(text: string, b: Bytes)
    requires AllLetters(text)
    decreases |text|
  {
    if |text| < 4 then SpellsShort(text, b)
    else
      var v, u := DigitValue(text[0]).value, DigitValue(text[1]).value;
      var t, s := DigitValue(text[2]).value, DigitValue(text[3]).value;
      |b| >= 3 && Spell(text, v, u, t, s) && b[..3] == Three(v, u, t, s) && SpellsAll(text[4..], b[3..])
  }

  ghost predicate SpellsShort(text: string, b: Bytes)
    requires |text| < 4 && AllLetters(text)
  {
    match |text|
    case 0 => b == ""
    case 1 => false
    case 2 => SpellTwo(DigitValue(text[0]).value, DigitValue(text[1]).value, b)
    case _ => SpellThree(DigitValue(text[0]).value, DigitValue(text[1]).value, DigitValue(text[2]).value, b)
  }

  ghost predicate SpellTwo(v: nat, u: nat, b: Bytes) {
    v < 64 && u < 64 && b == [Byte(v * 4 + u / 16)]
  }

  ghost predicate SpellThree(v: nat, u: nat, t: nat, b: Bytes) {
    v < 64 && u < 64 && t < 64 && b == [Byte(v * 4 + u / 16), Byte(u % 16 * 16 + t / 4)]
  }

  lemma OneLetterLeft(v: nat)
    requires v < 64
    ensures Base64.Scan("===", 1, v, 0) == None
  {
    assert "==="[1..] == "==" && "=="[1..] == "=" && "="[1..] == "";
    assert Base64.Scan("", 1, v, 0) == None;
    assert Base64.Scan("=", 1, v, 0) == None;
    assert Base64.Scan("==", 1, v, 0) == None;
  }

  lemma TwoLettersLeft(w: char, x: char, v: nat, u: nat, pads: nat) returns (b: Bytes)
    requires v < 64 && u < 64 && DigitValue(w) == Some(v) && DigitValue(x) == Some(u)
    ensures Base64.Scan([w] + ([x] + "=="), 0, 0, pads) == Some(b) && SpellTwo(v, u, b)
  {
    ScanPair(w, x, "==", pads);
    ScanPadding(u % 16);
    b := [Byte(v * 4 + u / 16)];
    assert b + "" == b;
  }

  lemma ThreeLettersLeft(w: char, x: char, y: char, v: nat, u: nat, t: nat, pads: nat) returns (b: Bytes)
    requires v < 64 && u < 64 && t < 64
    requires DigitValue(w) == Some(v) && DigitValue(x) == Some(u) && DigitValue(y) == Some(t)
    ensures Base64.Scan([w] + ([x] + ([y] + "=")), 0, 0, pads) == Some(b) && SpellThree(v, u, t, b)
  {
    ScanPair(w, x, [y] + "=", pads);
    ScanLetter(y, "=", 2, u % 16, 0);
    ScanPadding(t % 4);
    var first, second := Byte(v * 4 + u / 16), Byte(u % 16 * 16 + t / 4);
    b := [first, second];
    assert [first] + ([second] + "") == b;
  }

  /** What the scan makes of a text of letters. */
  ghost predicate Reads(text: string, result: Option<Bytes>)
    requires AllLetters(text)
  {
    if |text| % 4 == 1 then result == None else result.Some? && SpellsAll(text, result.value)
  }

  lemma ScanShort(text: string, pads: nat)
    requires AllLetters(text) && |text| < 4
    ensures Reads(text, Base64.Scan(text + Padding(|text|), 0, 0, pads))
  {
    if |text| == 0 {
      assert text + Padding(0) == "";
    } else if |text| == 1 {
      assert text + Padding(1) == [text[0]] + "===";
      ScanLetter(text[0], "===", 0, 0, pads);
      OneLetterLeft(DigitValue(text[0]).value);
    } else if |text| == 2 {
      assert text + Padding(2) == [text[0]] + ([text[1]] + "==");
      DigitsBelow64(text);
      var b := TwoLettersLeft(text[0], text[1], DigitValue(text[0]).value, DigitValue(text[1]).value, pads);
    } else {
      assert text + Padding(3) == [text[0]] + ([text[1]] + ([text[2]] + "="));
      DigitsBelow64(text);
      var v, u, t := DigitValue(text[0]).value, DigitValue(text[1]).value, DigitValue(text[2]).value;
      var b := ThreeLettersLeft(text[0], text[1], text[2], v, u, t, pads);
    }
  }

  lemma DigitsBelow64(text: string)
    requires AllLetters(text)
    ensures forall i :: 0 <= i < |text| ==> DigitValue(text[i]).value < 64
  {
  }

  lemma Unrolled(text: string)
    requires |text| >= 4
    ensures text + Padding(|text|)
         == [text[0]] + ([text[1]] + ([text[2]] + ([text[3]] + (text[4..] + Padding(|text[4..]|)))))
  {
  }

  lemma GroupReads(text: string, read: Option<Bytes>, v: nat, u: nat, t: nat, s: nat)
    requires AllLetters(text) && Spell(text, v, u, t, s) && Reads(text[4..], read)
    ensures Reads(text, if read.None? then None else Some(Three(v, u, t, s) + read.value))
  {
    if read.Some? {
      var b := Three(v, u, t, s) + read.value;
      assert b[..3] == Three(v, u, t, s) && b[3..] == read.value;
    }
  }

  lemma {:induction false} ScanReads(text: string, pads: nat)
    requires AllLetters(text)
    ensures Reads(text, Base64.Scan(text + Padding(|text|), 0, 0, pads))
    decreases |text|
  {
    if |text| < 4 {
      ScanShort(text, pads);
    } else {
      var more := text[4..];
      var rest := more + Padding(|more|);
      DigitsBelow64(text);
      var v, u := DigitValue(text[0]).value, DigitValue(text[1]).value;
      var t, s := DigitValue(text[2]).value, DigitValue(text[3]).value;
      ScanReads(more, 0);
      var read := Base64.Scan(rest, 0, 0, 0);
      Unrolled(text);
      ScanGroup(text, rest, v, u, t, s, pads);
      PrependThree(v, u, t, s, read);
      GroupReads(text, read, v, u, t, s);
    }
  }

  // ---- letter by letter -------------------------------------------------------------------------------

  lemma ReadLater(b: Bytes, text: string, j: nat)
    requires |b| >= 3 && 4 <= j < |text| && ReadFrom(b[3..], text[4..], j - 4)
    ensures ReadFrom(b, text, j)
  {
    SextetLater(b, j - 4);
    assert text[4..][j - 4] == text[j];
  }

  lemma Regrouped(v: nat, u: nat, t: nat, s: nat)
    requires v < 64 && u < 64 && t < 64 && s < 64
    ensures var x, y, z := v * 4 + u / 16, u % 16 * 16 + t / 4, t % 4 * 64 + s;
            x / 4 == v && x % 4 * 16 + y / 16 == u && y % 16 * 4 + z / 64 == t && z % 64 == s
  {
  }

  lemma ReadFirst(b: Bytes, text: string, j: nat, v: nat, u: nat, t: nat, s: nat)
    requires Spell(text, v, u, t, s) && |b| >= 3 && b[..3] == Three(v, u, t, s) && j < 4
    ensures ReadFrom(b, text, j)
  {
    var x, y, z := v * 4 + u / 16, u % 16 * 16 + t / 4, t % 4 * 64 + s;
    assert b[0] == b[..3][0] == Byte(x) && b[1] == b[..3][1] == Byte(y) && b[2] == b[..3][2] == Byte(z);
    FirstSextets(b, x, y, z);
    Regrouped(v, u, t, s);
  }

  lemma RegroupedTwo(v: nat, u: nat)
    requires v < 64 && u < 64
    ensures var x := v * 4 + u / 16; x / 4 == v && x % 4 * 16 == u - u % 16
  {
  }

  lemma TwoRead(text: string, b: Bytes, v: nat, u: nat, j: nat)
    requires |text| == 2 && DigitValue(text[0]) == Some(v) && DigitValue(text[1]) == Some(u) && SpellTwo(v, u, b)
    requires j < 2
    ensures ReadFrom(b, text, j)
  {
    var x := b[0] as int;
    RegroupedTwo(v, u);
    FirstSextets(b, x, 0, 0);
    assert j == 0 ==> Sextet(b, j) == v;
    assert j == 1 ==> Sextet(b, j) == u - u % 16;
  }

  lemma RegroupedThree(v: nat, u: nat, t: nat)
    requires v < 64 && u < 64 && t < 64
    ensures var x, y := v * 4 + u / 16, u % 16 * 16 + t / 4;
            x / 4 == v && x % 4 * 16 + y / 16 == u && y % 16 * 4 == t - t % 4
  {
  }

  lemma SextetsOfTwo(b: Bytes, v: nat, u: nat, t: nat)
    requires SpellThree(v, u, t, b)
    ensures Sextet(b, 0) == v && Sextet(b, 1) == u && Sextet(b, 2) == t - t % 4
  {
    var x, y := b[0] as int, b[1] as int;
    RegroupedThree(v, u, t);
    FirstSextets(b, x, y, 0);
  }

  lemma ThreeRead(text: string, b: Bytes, v: nat, u: nat, t: nat, j: nat)
    requires |text| == 3 && j < 3 && SpellThree(v, u, t, b)
    requires DigitValue(text[0]) == Some(v) && DigitValue(text[1]) == Some(u) && DigitValue(text[2]) == Some(t)
    ensures ReadFrom(b, text, j)
  {
    SextetsOfTwo(b, v, u, t);
    if j == 0 {
      assert ReadFrom(b, text, 0);
    } else if j == 1 {
      assert ReadFrom(b, text, 1);
    } else {
      assert ReadFrom(b, text, 2);
    }
  }

  lemma {:induction false} SpelledLength(text: string, b: Bytes)
    requires AllLetters(text) && SpellsAll(text, b)
    ensures |b| == |text| * 3 / 4
    decreases |text|
  {
    if |text| >= 4 {
      SpelledLength(text[4..], b[3..]);
    }
  }

  lemma {:induction false} SpelledAt(text: string, b: Bytes, j: nat)
    requires AllLetters(text) && SpellsAll(text, b) && j < |text|
    ensures ReadFrom(b, text, j)
    decreases |text|
  {
    if |text| == 2 {
      TwoRead(text, b, DigitValue(text[0]).value, DigitValue(text[1]).value, j);
    } else if |text| == 3 {
      ThreeRead(text, b, DigitValue(text[0]).value, DigitValue(text[1]).value, DigitValue(text[2]).value, j);
    } else if j < 4 {
      ReadFirst(b, text, j, DigitValue(text[0]).value, DigitValue(text[1]).value,
                DigitValue(text[2]).value, DigitValue(text[3]).value);
    } else {
      SpelledAt(text[4..], b[3..], j - 4);
      ReadLater(b, text, j);
    }
  }

  /** Text of letters alone is refused exactly when one is left over, and otherwise spells three bytes to
      four letters: every byte of it is read, and only bits beyond the last are thrown away. */
  lemma LettersSpellBytes(text: string)
    requires AllLetters(text)
    ensures Decode(text).Some? <==> |text| % 4 != 1
    ensures Decode(text).Some? ==>
              && |Decode(text).value| == |text| * 3 / 4
              && forall j :: 0 <= j < |text| ==> ReadFrom(Decode(text).value, text, j)
  {
    ScanReads(text, 0);
    if Decode(text).Some? {
      SpelledLength(text, Decode(text).value);
      forall j | 0 <= j < |text| ensures ReadFrom(Decode(text).value, text, j) {
        SpelledAt(text, Decode(text).value, j);
      }
    }
  }
}
