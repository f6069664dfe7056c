/** A reader of JSON objects (sections 2 to 7 of RFC 8259), as far as flat objects go: what was written
    canonically is read back, every string, number and word of it. It is what the other side of every
    hash and every signature does with the bytes, and it owes nothing to how they were written. */
module JsonReadings {
  import opened Base64
  import opened Canonical
  import opened PdfRequests
  import opened PdfRoundTrips
  import R = PdfReadings
  import opened Statements

  /** What was read off the front of a text, and what is left of it. */
  datatype Taken<T> = Taken(value: T, rest: string) | Stuck

  // ---- strings ----------------------------------------------------------------------------------------

  function HexValue(c: char): Option<nat> {
    if '0' <= c <= '9' then Some((c - '0') as nat)
    else if 'a' <= c <= 'f' then Some((c - 'a') as nat + 10)
    else if 'A' <= c <= 'F' then Some((c - 'A') as nat + 10)
    else None
  }

  /** The two-character escapes. */
  function Named(c: char): Option<char> {
    match c
    case '"' => Some('"')
    case '\\' => Some('\\')
    case '/' => Some('/')
    case 'b' => Some(8 as char)
    case 'f' => Some(12 as char)
    case 'n' => Some(10 as char)
    case 'r' => Some(13 as char)
    case 't' => Some(9 as char)
    case _ => None
  }

  /** The character a text begins with, and how many of the text's it takes: one, an escape, or a code
      point in hexadecimal, of which those beyond ASCII are not wanted here: they come as their bytes.
      None for the closing quote, for a control character and for a broken escape. */
  function FirstCharacter(s: string): Option<(char, nat)> {
    if s == "" || s[0] == '"' || s[0] as int < 32 then None
    else if s[0] != '\\' then Some((s[0], 1))
    else if |s| < 2 then None
    else if s[1] != 'u' then
      match Named(s[1])
      case Some(c) => Some((c, 2))
      case None => None
    else if |s| < 6 || s[2] != '0' || s[3] != '0' then None
    else
      match (HexValue(s[4]), HexValue(s[5]))
      case (Some(x), Some(y)) => if x < 8 then Some(((x * 16 + y) as char, 6)) else None
      case _ => None
  }

  lemma FirstFits(s: string)
    ensures FirstCharacter(s).Some? ==> 1 <= FirstCharacter(s).value.1 <= |s|
  {
  }

  /** A string, from behind its opening quote to behind its closing one. */
  function ReadText(s: string): (t: Taken<string>)
    ensures t.Taken? ==> |t.rest| < |s|
  {
    if s != "" && s[0] == '"' then Taken("", s[1..])
    else
      match FirstCharacter(s)
      case None => Stuck
      case Some((c, width)) =>
        FirstFits(s);
        match ReadText(s[width..])
        case Stuck => Stuck
        case Taken(text, rest) => Taken([c] + text, rest)
  }

  lemma EscapedReads(c: char, more: string)
    ensures var s := Escape(c) + more;
            && FirstCharacter(s) == Some((c, |Escape(c)|)) && s[0] != '"' && s[|Escape(c)|..] == more
  {
    var e := Escape(c);
    var s := e + more;
    assert s[|e|..] == more;
    assert forall i :: 0 <= i < |e| ==> s[i] == e[i];
    if c as int < 32 && |e| == 6 {
      assert e[4] == HexDigit(c as int / 16) && e[5] == HexDigit(c as int % 16);
      HexReads(c as int / 16);
      HexReads(c as int % 16);
    }
  }

  lemma HexReads(v: nat)
    requires v < 16
    ensures HexValue(HexDigit(v)) == Some(v)
  {
  }

  lemma {:induction false} TextReadsBack(s: string, rest: string)
    ensures ReadText(TextBody(s) + rest) == Taken(s, rest)
  {
    if s == "" {
      assert ("\"" + rest)[1..] == rest;
    } else {
      Associate(Escape(s[0]), TextBody(s[1..]), rest);
      EscapedReads(s[0], TextBody(s[1..]) + rest);
      TextReadsBack(s[1..], rest);
      assert s == [s[0]] + s[1..];
    }
  }

  // ---- numbers and words ------------------------------------------------------------------------------

  function ReadRun(s: string): (t: Taken<string>)
    ensures t.Taken? && AllDigits(t.value) && s == t.value + t.rest && EndsDigits(t.rest)
  {
    if EndsDigits(s) then Taken("", s)
    else
      var more := ReadRun(s[1..]);
      Taken([s[0]] + more.value, more.rest)
  }

  function Negated(negative: bool, n: int): int { if negative then -n else n }

  function NumberOf(fraction: bool, n: int): Value { if fraction then Instant(n) else Integer(n) }

  function FractionOf(fraction: bool): string { if fraction then ".0" else "" }

  /** A number: an integer, or one with a fraction, of which none but nought is wanted here. */
  function ReadNumber(s: string, negative: bool): (t: Taken<Value>)
    ensures t.Taken? ==> |t.rest| < |s|
  {
    var run := ReadRun(s);
    if run.value == "" then Stuck
    else ReadFraction(Negated(negative, ReadDigits(run.value)), run.rest)
  }

  function ReadFraction(n: int, s: string): (t: Taken<Value>)
    ensures t.Taken? ==> |t.rest| <= |s|
  {
    if ".0" <= s then Taken(Instant(n), s[2..]) else Taken(Integer(n), s)
  }

  function ReadValue(s: string): (t: Taken<Value>)
    ensures t.Taken? ==> |t.rest| < |s|
  {
    if s == "" then Stuck
    else if s[0] == '"' then
      match ReadText(s[1..])
      case Stuck => Stuck
      case Taken(text, rest) => Taken(Text(text), rest)
    else if s[0] == '-' then ReadNumber(s[1..], true)
    else if "true" <= s then Taken(Flag(true), s[4..])
    else if "false" <= s then Taken(Flag(false), s[5..])
    else if "null" <= s then Taken(Null, s[4..])
    else ReadNumber(s, false)
  }

  lemma RunReads(digits: string, rest: string)
    requires AllDigits(digits) && EndsDigits(rest)
    ensures ReadRun(digits + rest) == Taken(digits, rest)
  {
    var run := ReadRun(digits + rest);
    DigitRun(digits, run.value, rest, run.rest);
  }

  lemma FractionReads(n: int, fraction: bool, rest: string)
    requires EndsValue(rest)
    ensures var s := FractionOf(fraction) + rest;
            EndsDigits(s) && ReadFraction(n, s) == Taken(NumberOf(fraction, n), rest)
  {
    var s := FractionOf(fraction) + rest;
    assert fraction ==> s[0] == '.' && s[1] == '0' && s[2..] == rest;
    assert !fraction ==> s == rest;
  }

  lemma NumberReads(digits: string, negative: bool, fraction: bool, rest: string)
    requires AllDigits(digits) && digits != "" && EndsValue(rest)
    ensures ReadNumber(digits + (FractionOf(fraction) + rest), negative)
         == Taken(NumberOf(fraction, Negated(negative, ReadDigits(digits))), rest)
  {
    FractionReads(Negated(negative, ReadDigits(digits)), fraction, rest);
    RunReads(digits, FractionOf(fraction) + rest);
  }

  lemma UnsignedReads(s: string)
    requires s != "" && IsDigit(s[0])
    ensures ReadValue(s) == ReadNumber(s, false)
  {
  }

  lemma NegativeReads(s: string)
    ensures ReadValue("-" + s) == ReadNumber(s, true)
  {
    assert ("-" + s)[1..] == s;
  }

  lemma SignReads(digits: string, negative: bool, fraction: bool, rest: string)
    requires AllDigits(digits) && digits != "" && EndsValue(rest)
    ensures ReadValue(Signed(negative, digits) + (FractionOf(fraction) + rest))
         == Taken(NumberOf(fraction, Negated(negative, ReadDigits(digits))), rest)
  {
    var more := FractionOf(fraction) + rest;
    NumberReads(digits, negative, fraction, rest);
    if negative {
      Associate("-", digits, more);
      NegativeReads(digits + more);
    } else {
      assert (digits + more)[0] == digits[0];
      UnsignedReads(digits + more);
    }
  }

  lemma DecimalReads(n: int, fraction: bool, rest: string)
    requires EndsValue(rest)
    ensures ReadValue((Decimal(n) + FractionOf(fraction)) + rest) == Taken(NumberOf(fraction, n), rest)
  {
    Associate(Decimal(n), FractionOf(fraction), rest);
    DigitsReadBack(if n < 0 then -n else n);
    SignReads(Digits(if n < 0 then -n else n), n < 0, fraction, rest);
  }

  lemma ValueReadsBack(v: Value, rest: string)
    requires EndsValue(rest)
    ensures ReadValue(Print(v) + rest) == Taken(v, rest)
  {
    match v
    case Text(text) =>
      Associate("\"", TextBody(text), rest);
      assert (Print(v) + rest)[1..] == TextBody(text) + rest;
      TextReadsBack(text, rest);
    case Integer(n) =>
      assert Decimal(n) + "" == Decimal(n);
      DecimalReads(n, false, rest);
    case Instant(n) =>
      DecimalReads(n, true, rest);
    case Flag(on) =>
      WordReads(Print(v), rest);
    case Null =>
      WordReads(Print(v), rest);
  }

  lemma WordReads(word: string, rest: string)
    ensures word <= word + rest && (word + rest)[|word|..] == rest
  {
  }

  // ---- objects ----------------------------------------------------------------------------------------

  function ReadMember(s: string): (t: Taken<Member>)
    ensures t.Taken? ==> |t.rest| < |s|
  {
    if s == "" || s[0] != '"' then Stuck
    else
      match ReadText(s[1..])
      case Stuck => Stuck
      case Taken(key, rest) =>
        if rest == "" || rest[0] != ':' then Stuck
        else
          match ReadValue(rest[1..])
          case Stuck => Stuck
          case Taken(value, end) => Taken(Member(key, value), end)
  }

  /** One or more members, from the opening quote of the first key to behind the closing brace. */
  function ReadMembers(s: string): Taken<Object>
    decreases |s|
  {
    match ReadMember(s)
    case Stuck => Stuck
    case Taken(m, rest) =>
      if rest == "" then Stuck
      else if rest[0] == '}' then Taken([m], rest[1..])
      else if rest[0] != ',' then Stuck
      else
        match ReadMembers(rest[1..])
        case Stuck => Stuck
        case Taken(more, end) => Taken([m] + more, end)
  }

  /** `json.loads` of an object without nesting and without spaces; None where it raises. */
  function Loads(text: string): Option<Object> {
    if text == "" || text[0] != '{' then None
    else if text == "{}" then Some([])
    else
      match ReadMembers(text[1..])
      case Stuck => None
      case Taken(o, rest) => if rest == "" then Some(o) else None
  }

  lemma MemberReadsBack(m: Member, more: string)
    requires EndsValue(more)
    ensures ReadMember(Quote(m.key) + (":" + (Print(m.value) + more))) == Taken(m, more)
  {
    var value := Print(m.value) + more;
    var tail := ":" + value;
    Associate("\"", TextBody(m.key), tail);
    TextReadsBack(m.key, tail);
    ValueReadsBack(m.value, more);
    TextThenValue("\"" + (TextBody(m.key) + tail), m.key, tail, value, m.value, more);
  }

  lemma TextThenValue(s: string, key: string, tail: string, text: string, value: Value, more: string)
    requires s != "" && s[0] == '"' && ReadText(s[1..]) == Taken(key, tail)
    requires tail == ":" + text && ReadValue(text) == Taken(value, more)
    ensures ReadMember(s) == Taken(Member(key, value), more)
  {
    assert tail[1..] == text;
  }

  lemma LastMember(s: string, m: Member)
    requires ReadMember(s) == Taken(m, "}")
    ensures ReadMembers(s) == Taken([m], "")
  {
  }

  lemma NextMember(s: string, m: Member, tail: string, more: Object, end: string)
    requires ReadMember(s) == Taken(m, "," + tail) && ReadMembers(tail) == Taken(more, end)
    ensures ReadMembers(s) == Taken([m] + more, end)
  {
    assert ("," + tail)[1..] == tail;
  }

  lemma {:induction false} MembersReadBack(o: Object)
    requires o != []
    ensures ReadMembers(Members(o)) == Taken(o, "")
    decreases |o|
  {
    var s, rest := Members(o), o[1..];
    MemberReadsBack(o[0], After(rest));
    assert o == [o[0]] + rest;
    if rest == [] {
      assert o == [o[0]];
      LastMember(s, o[0]);
    } else {
      MembersReadBack(rest);
      NextMember(s, o[0], Members(rest), rest, "");
    }
  }

  /** Canonical bytes are JSON for the object they were written from, whatever order it was given in. */
  lemma CanonicalReadsBack(o: Object)
    requires DistinctKeys(o)
    ensures Loads(CanonicalBytes(o)) == Some(Sort(o))
    ensures AsMap(Sort(o)) == AsMap(o) && Ascending(Sort(o))
  {
    SortKeeps(o);
    var sorted := Sort(o);
    assert CanonicalBytes(o)[1..] == Members(sorted);
    if sorted != [] {
      assert CanonicalBytes(o)[1] == '"';
      MembersReadBack(sorted);
    }
  }

  /** So this reader is one under which the office reads the documents voters render. */
  lemma ReaderLoadsBodies(p: Payload)
    ensures LoadsBack(ObjectReader(), p)
  {
    R.FieldsDistinctKeys(p);
    CanonicalReadsBack(FieldsOf(p));
    AscendingDistinct(Sort(FieldsOf(p)));
  }

  function ObjectReader(): Parser {
    (text: string) =>
      match Loads(text)
      case Some(o) => Some(Dict(o))
      case None => None
  }

  lemma {:induction false} AscendingDistinct(o: Object)
    requires Ascending(o)
    ensures DistinctKeys(o)
  {
    if o != [] {
      AscendingDistinct(o[1..]);
      forall i | 0 < i < |o| ensures o[0].key != o[i].key {
        assert o[i] == o[1..][i - 1];
        KeysInMap(o[1..]);
        BeforeTotal(o[0].key, o[0].key);
      }
    }
  }

  // ---- records ----------------------------------------------------------------------------------------

  /** The member under this key is text that decodes to these bytes. */
  ghost predicate Holds(o: Object, key: string, b: Bytes) {
    Lookup(o, key).Some? && Lookup(o, key).value.Text? && Decode(Lookup(o, key).value.text) == Some(b)
  }

  /** A ballot is read from its five members, in any order and among any others, and from nothing less. */
  lemma FromDictReads(o: Object, b: Ballot)
    ensures FromDict(o) == Some(b)
       <==> && Lookup(o, "selection") == Some(Integer(b.selection))
            && Holds(o, "adhoc_public_key", b.adhocKey) && Holds(o, "token", b.token)
            && Holds(o, "nonce", b.nonce) && Holds(o, "vote_signature", b.signature)
  {
  }

  lemma {:induction false} SortedLooksUp(o: Object, key: string)
    requires DistinctKeys(o)
    ensures Lookup(Sort(o), key) == Lookup(o, key)
  {
    SortKeeps(o);
    AscendingDistinct(Sort(o));
    LookupFromMap(o, key);
    LookupFromMap(Sort(o), key);
  }

  /** The bytes a ballot is kept and hashed as are enough to have it back. */
  lemma RecordReadsBack(b: Ballot)
    ensures Loads(RecordText(b)).Some? && FromDict(Loads(RecordText(b)).value) == Some(b)
  {
    var o := ToDict(b);
    BallotKeysDistinct(b);
    CanonicalReadsBack(o);
    FromDictInvertsToDict(b);
    SortedLooksUp(o, "selection");
    SortedLooksUp(o, "adhoc_public_key");
    SortedLooksUp(o, "token");
    SortedLooksUp(o, "nonce");
    SortedLooksUp(o, "vote_signature");
    FromDictReads(o, b);
    FromDictReads(Sort(o), b);
  }
}
