/** Canonical serialisation: JSON with sorted keys and no whitespace, over flat objects. Text is
    its UTF-8 bytes, which escaping passes through untouched above the control range. */
module Canonical {
  /** A float appears only as an instant floored to the second, printed with one decimal. */
  datatype Value = Text(text: string) | Integer(n: int) | Instant(at: int) | Flag(on: bool) | Null

  datatype Member = Member(key: string, value: Value)

  /** A Python dict: its members in insertion order, keys distinct. */
  type Object = seq<Member>

  ghost predicate DistinctKeys(o: Object) {
    forall i, j :: 0 <= i < j < |o| ==> o[i].key != o[j].key
  }

  function AsMap(o: Object): map<string, Value> {
    if o == [] then map[] else AsMap(o[1..])[o[0].key := o[0].value]
  }

  // ---- printing values -------------------------------------------------------

  function HexDigit(v: nat): char
    requires v < 16
  {
    if v < 10 then '0' + v as char else 'a' + (v - 10) as char
  }

  function Escape(c: char): string {
    if c == '"' then "\\\""
    else if c == '\\' then "\\\\"
    else if c as int == 8 then "\\b"
    else if c as int == 9 then "\\t"
    else if c as int == 10 then "\\n"
    else if c as int == 12 then "\\f"
    else if c as int == 13 then "\\r"
    else if c as int < 32 then "\\u00" + [HexDigit(c as int / 16), HexDigit(c as int % 16)]
    else [c]
  }

  /** The escaped text followed by its closing quote. */
  function TextBody(s: string): string {
    if s == "" then "\"" else Escape(s[0]) + TextBody(s[1..])
  }

  function Quote(s: string): string { "\"" + TextBody(s) }

  function Digits(n: nat): string {
    if n < 10 then ['0' + n as char] else Digits(n / 10) + ['0' + (n % 10) as char]
  }

  function Decimal(n: int): string {
    if n < 0 then "-" + Digits(-n) else Digits(n)
  }

  function Print(v: Value): string {
    match v
    case Text(s) => Quote(s)
    case Integer(n) => Decimal(n)
    case Instant(at) => Decimal(at) + ".0"
    case Flag(on) => if on then "true" else "false"
    case Null => "null"
  }

  // ---- printing objects ------------------------------------------------------

  predicate Before(a: string, b: string) {
    if b == "" then false
    else if a == "" then true
    else a[0] < b[0] || (a[0] == b[0] && Before(a[1..], b[1..]))
  }

  function Insert(m: Member, o: Object): Object {
    if o == [] then [m]
    else if Before(o[0].key, m.key) then [o[0]] + Insert(m, o[1..])
    else [m] + o
  }

  function Sort(o: Object): Object {
    if o == [] then [] else Insert(o[0], Sort(o[1..]))
  }

  function Members(o: Object): string
    decreases o, 0
  {
    if o == [] then "}"
    else Quote(o[0].key) + (":" + (Print(o[0].value) + After(o[1..])))
  }

  /** What follows a value: the rest of the members, or the end. */
  function After(o: Object): string
    decreases o, 1
  {
    if o == [] then "}" else "," + Members(o)
  }

  /** `canonical_bytes`. */
  function CanonicalBytes(o: Object): string { "{" + Members(Sort(o)) }

  // ---- text is read back uniquely --------------------------------------------

  lemma Associate(a: string, b: string, c: string)
    ensures (a + b) + c == a + (b + c)
  {
  }

  lemma CancelLeft(h: string, x: string, y: string)
    requires h + x == h + y
    ensures x == y
  {
    assert x == (h + x)[|h|..] && y == (h + y)[|h|..];
  }

  lemma EscapeShape(c: char)
    ensures Escape(c) != "" && Escape(c)[0] != '"'
    ensures Escape(c)[0] == '\\' <==> c == '"' || c == '\\' || c as int < 32
    ensures Escape(c)[0] == '\\' ==> |Escape(c)| >= 2
  {
  }

  /** No escape sequence is the beginning of another's. */
  lemma EscapePrefixFree(c: char, d: char, x: string, y: string)
    requires Escape(c) + x == Escape(d) + y
    ensures c == d && x == y
  {
    var s, t := Escape(c), Escape(d);
    EscapeShape(c);
    EscapeShape(d);
    assert (s + x)[0] == s[0] && (t + y)[0] == t[0];
    if s[0] == '\\' {
      assert (s + x)[1] == s[1] && (t + y)[1] == t[1];
      if s[1] == 'u' {
        assert (s + x)[4] == s[4] && (t + y)[4] == t[4];
        assert (s + x)[5] == s[5] && (t + y)[5] == t[5];
      }
    }
    assert c == d;
    assert x == (s + x)[|s|..] && y == (t + y)[|t|..];
  }

  lemma TextBodyHead(a: string, x: string)
    ensures TextBody(a) != "" && (TextBody(a)[0] == '"' <==> a == "")
    ensures a != "" ==> TextBody(a) + x == Escape(a[0]) + (TextBody(a[1..]) + x)
  {
    if a != "" {
      EscapeShape(a[0]);
      Associate(Escape(a[0]), TextBody(a[1..]), x);
    }
  }

  lemma {:induction false} TextPrefixFree(a: string, b: string, x: string, y: string)
    requires TextBody(a) + x == TextBody(b) + y
    ensures a == b && x == y
  {
    TextBodyHead(a, x);
    TextBodyHead(b, y);
    assert (TextBody(a) + x)[0] == TextBody(a)[0] && (TextBody(b) + y)[0] == TextBody(b)[0];
    if a == "" {
      CancelLeft("\"", x, y);
    } else {
      EscapePrefixFree(a[0], b[0], TextBody(a[1..]) + x, TextBody(b[1..]) + y);
      TextPrefixFree(a[1..], b[1..], x, y);
      assert a == [a[0]] + a[1..] && b == [b[0]] + b[1..];
    }
  }

  lemma QuotePrefixFree(a: string, b: string, x: string, y: string)
    requires Quote(a) + x == Quote(b) + y
    ensures a == b && x == y
  {
    Associate("\"", TextBody(a), x);
    Associate("\"", TextBody(b), y);
    CancelLeft("\"", TextBody(a) + x, TextBody(b) + y);
    TextPrefixFree(a, b, x, y);
  }

  // ---- numbers are read back uniquely ----------------------------------------

  predicate IsDigit(c: char) { '0' <= c <= '9' }

  predicate AllDigits(s: string) {
    forall i :: 0 <= i < |s| ==> IsDigit(s[i])
  }

  function ReadDigits(s: string): nat
    requires AllDigits(s)
  {
    if s == "" then 0 else ReadDigits(s[..|s| - 1]) * 10 + (s[|s| - 1] - '0') as nat
  }

  lemma {:induction false} DigitsReadBack(n: nat)
    ensures Digits(n) != "" && AllDigits(Digits(n)) && ReadDigits(Digits(n)) == n
  {
    if n >= 10 {
      DigitsReadBack(n / 10);
      assert Digits(n)[..|Digits(n)| - 1] == Digits(n / 10);
    }
  }

  function Zeros(k: nat): string { seq(k, _ => '0') }

  /** Leading zeros do not change what digits read as. */
  lemma {:induction false} ReadZeros(k: nat, s: string)
    requires AllDigits(s)
    ensures AllDigits(Zeros(k) + s) && ReadDigits(Zeros(k) + s) == ReadDigits(s)
  {
    if s == "" {
      assert Zeros(k) + s == Zeros(k);
      ReadOnlyZeros(k);
    } else {
      var n := |s| - 1;
      ReadZeros(k, s[..n]);
      assert (Zeros(k) + s)[..|Zeros(k) + s| - 1] == Zeros(k) + s[..n];
    }
  }

  lemma {:induction false} ReadOnlyZeros(k: nat)
    ensures AllDigits(Zeros(k)) && ReadDigits(Zeros(k)) == 0
  {
    if k > 0 {
      ReadOnlyZeros(k - 1);
      assert Zeros(k)[..k - 1] == Zeros(k - 1);
    }
  }

  predicate EndsDigits(x: string) { x == "" || !IsDigit(x[0]) }

  lemma DigitRunReaches(s: string, t: string, x: string, y: string)
    requires AllDigits(t) && EndsDigits(x) && s + x == t + y
    ensures |s| >= |t|
  {
    var u := s + x;
    assert forall i :: 0 <= i < |t| ==> u[i] == t[i];
    assert x != "" ==> u[|s|] == x[0];
  }

  lemma DigitRun(s: string, t: string, x: string, y: string)
    requires AllDigits(s) && AllDigits(t) && EndsDigits(x) && EndsDigits(y) && s + x == t + y
    ensures s == t && x == y
  {
    DigitRunReaches(s, t, x, y);
    DigitRunReaches(t, s, y, x);
    assert s == (s + x)[..|s|] && t == (t + y)[..|t|];
    CancelLeft(s, x, y);
  }

  function Signed(negative: bool, s: string): string { if negative then "-" + s else s }

  lemma SignedPrefixFree(m: bool, s: string, n: bool, t: string, x: string, y: string)
    requires AllDigits(s) && AllDigits(t) && s != "" && t != "" && EndsDigits(x) && EndsDigits(y)
    requires Signed(m, s) + x == Signed(n, t) + y
    ensures m == n && s == t && x == y
  {
    assert (Signed(m, s) + x)[0] == (if m then '-' else s[0]);
    assert (Signed(n, t) + y)[0] == (if n then '-' else t[0]);
    if m {
      Associate("-", s, x);
      Associate("-", t, y);
      CancelLeft("-", s + x, t + y);
    }
    DigitRun(s, t, x, y);
  }

  lemma DecimalPrefixFree(m: int, n: int, x: string, y: string)
    requires EndsDigits(x) && EndsDigits(y) && Decimal(m) + x == Decimal(n) + y
    ensures m == n && x == y
  {
    var a, b := if m < 0 then -m else m, if n < 0 then -n else n;
    DigitsReadBack(a);
    DigitsReadBack(b);
    SignedPrefixFree(m < 0, Digits(a), n < 0, Digits(b), x, y);
  }

  // ---- values and objects are read back uniquely ------------------------------

  predicate EndsValue(x: string) { x != "" && (x[0] == ',' || x[0] == '}') }

  function Lead(v: Value): char {
    match v
    case Text(_) => '"'
    case Integer(n) => if n < 0 then '-' else Digits(n)[0]
    case Instant(at) => if at < 0 then '-' else Digits(at)[0]
    case Flag(on) => if on then 't' else 'f'
    case Null => 'n'
  }

  lemma PrintLead(v: Value)
    ensures Print(v) != "" && Print(v)[0] == Lead(v)
    ensures v.Integer? || v.Instant? ==> Lead(v) == '-' || IsDigit(Lead(v))
  {
    match v
    case Integer(n) => DigitsReadBack(if n < 0 then -n else n);
    case Instant(n) => DigitsReadBack(if n < 0 then -n else n);
    case _ =>
  }

  lemma NumberPrefixFree(v: Value, w: Value, x: string, y: string)
    requires EndsValue(x) && EndsValue(y) && Print(v) + x == Print(w) + y
    requires (v.Integer? || v.Instant?) && (w.Integer? || w.Instant?)
    ensures v == w && x == y
  {
    var m, n := if v.Integer? then v.n else v.at, if w.Integer? then w.n else w.at;
    var p, q := (if v.Integer? then "" else ".0"), (if w.Integer? then "" else ".0");
    Associate(Decimal(m), p, x);
    Associate(Decimal(n), q, y);
    assert Decimal(m) + "" == Decimal(m) && Decimal(n) + "" == Decimal(n);
    DecimalPrefixFree(m, n, p + x, q + y);
    SuffixPrefixFree(p, q, x, y);
  }

  lemma SuffixPrefixFree(p: string, q: string, x: string, y: string)
    requires EndsValue(x) && EndsValue(y) && p + x == q + y
    requires (p == "" || p == ".0") && (q == "" || q == ".0")
    ensures p == q && x == y
  {
    assert (p + x)[0] == (if p == "" then x[0] else '.');
    assert (q + y)[0] == (if q == "" then y[0] else '.');
    CancelLeft(p, x, y);
  }

  lemma ValuePrefixFree(v: Value, w: Value, x: string, y: string)
    requires EndsValue(x) && EndsValue(y) && Print(v) + x == Print(w) + y
    ensures v == w && x == y
  {
    PrintLead(v);
    PrintLead(w);
    assert (Print(v) + x)[0] == Lead(v) && (Print(w) + y)[0] == Lead(w);
    if v.Text? {
      QuotePrefixFree(v.text, w.text, x, y);
    } else if v.Integer? || v.Instant? {
      NumberPrefixFree(v, w, x, y);
    } else {
      assert v == w;
      assert x == (Print(v) + x)[|Print(v)|..] && y == (Print(w) + y)[|Print(w)|..];
    }
  }

  lemma MemberPrefixFree(a: Member, b: Member, x: string, y: string)
    requires EndsValue(x) && EndsValue(y)
    requires Quote(a.key) + (":" + (Print(a.value) + x)) == Quote(b.key) + (":" + (Print(b.value) + y))
    ensures a == b && x == y
  {
    QuotePrefixFree(a.key, b.key, ":" + (Print(a.value) + x), ":" + (Print(b.value) + y));
    CancelLeft(":", Print(a.value) + x, Print(b.value) + y);
    ValuePrefixFree(a.value, b.value, x, y);
  }

  lemma {:induction false} AfterInjective(a: Object, b: Object)
    requires After(a) == After(b)
    ensures a == b
    decreases |a|
  {
    assert a == [] <==> After(a)[0] == '}';
    assert b == [] <==> After(b)[0] == '}';
    if a != [] {
      CancelLeft(",", Members(a), Members(b));
      MemberPrefixFree(a[0], b[0], After(a[1..]), After(b[1..]));
      AfterInjective(a[1..], b[1..]);
      assert a == [a[0]] + a[1..] && b == [b[0]] + b[1..];
    }
  }

  lemma MembersInjective(a: Object, b: Object)
    requires Members(a) == Members(b)
    ensures a == b
  {
    assert a == [] <==> Members(a)[0] == '}';
    assert b == [] <==> Members(b)[0] == '}';
    if a != [] {
      AfterInjective(a, b);
    }
  }

  // ---- the order of keys -----------------------------------------------------

  lemma {:induction false} BeforeTransitive(a: string, b: string, c: string)
    requires Before(a, b) && Before(b, c)
    ensures Before(a, c)
  {
    if a != "" && a[0] == b[0] == c[0] {
      BeforeTransitive(a[1..], b[1..], c[1..]);
    }
  }

  lemma {:induction false} BeforeTotal(a: string, b: string)
    ensures Before(a, b) || Before(b, a) || a == b
    ensures !(Before(a, b) && Before(b, a))
    ensures !Before(a, a)
  {
    if a != "" {
      BeforeTotal(a[1..], a[1..]);
    }
    if a != "" && b != "" && a[0] == b[0] {
      BeforeTotal(a[1..], b[1..]);
      assert a == [a[0]] + a[1..] && b == [b[0]] + b[1..];
    }
  }

  /** Keys strictly ascending. */
  ghost predicate Ascending(o: Object) {
    o == [] || ((forall k :: k in AsMap(o[1..]) ==> Before(o[0].key, k)) && Ascending(o[1..]))
  }

  lemma {:induction false} InsertKeeps(m: Member, o: Object)
    requires Ascending(o) && m.key !in AsMap(o)
    ensures Ascending(Insert(m, o)) && AsMap(Insert(m, o)) == AsMap(o)[m.key := m.value]
  {
    if o != [] {
      BeforeTotal(o[0].key, m.key);
      if Before(o[0].key, m.key) {
        InsertKeeps(m, o[1..]);
        assert Insert(m, o)[1..] == Insert(m, o[1..]);
      } else {
        assert Insert(m, o)[1..] == o;
        forall k | k in AsMap(o[1..]) ensures Before(m.key, k) {
          BeforeTransitive(m.key, o[0].key, k);
        }
      }
    }
  }

  lemma {:induction false} KeysInMap(o: Object)
    ensures forall k :: k in AsMap(o) <==> exists i :: 0 <= i < |o| && o[i].key == k
  {
    if o != [] {
      KeysInMap(o[1..]);
      forall k ensures k in AsMap(o) <==> exists i :: 0 <= i < |o| && o[i].key == k {
        if k in AsMap(o[1..]) {
          var i :| 0 <= i < |o[1..]| && o[1..][i].key == k;
          assert o[i + 1].key == k;
        } else if i :| 0 <= i < |o| && o[i].key == k {
          if i > 0 {
            assert o[1..][i - 1].key == k;
          }
        }
      }
    }
  }

  lemma {:induction false} SortKeeps(o: Object)
    requires DistinctKeys(o)
    ensures Ascending(Sort(o)) && AsMap(Sort(o)) == AsMap(o)
  {
    if o != [] {
      assert DistinctKeys(o[1..]);
      SortKeeps(o[1..]);
      KeysInMap(o[1..]);
      InsertKeeps(o[0], Sort(o[1..]));
    }
  }

  lemma EmptyMap(o: Object)
    ensures AsMap(o) == map[] <==> o == []
  {
    if o != [] {
      assert o[0].key in AsMap(o);
    }
  }

  /** Ascending members are determined by the map they stand for. */
  lemma {:induction false} AscendingUnique(a: Object, b: Object)
    requires Ascending(a) && Ascending(b) && AsMap(a) == AsMap(b)
    ensures a == b
  {
    EmptyMap(a);
    EmptyMap(b);
    if a != [] {
      var k, l := a[0].key, b[0].key;
      assert k in AsMap(b) && l in AsMap(a);
      BeforeTotal(k, l);
      BeforeTotal(k, k);
      BeforeTotal(l, l);
      assert k == l;
      assert AsMap(a[1..]) == AsMap(a) - {k};
      assert AsMap(b[1..]) == AsMap(b) - {k};
      AscendingUnique(a[1..], b[1..]);
      assert a[0].value == AsMap(a)[k] && b[0].value == AsMap(b)[k];
      assert a == [a[0]] + a[1..] && b == [b[0]] + b[1..];
    }
  }

  /** Canonical bytes are equal exactly when the objects are: the order members were inserted in
      does not matter, and nothing else is lost. */
  lemma CanonicalExact(a: Object, b: Object)
    requires DistinctKeys(a) && DistinctKeys(b)
    ensures CanonicalBytes(a) == CanonicalBytes(b) <==> AsMap(a) == AsMap(b)
  {
    SortKeeps(a);
    SortKeeps(b);
    if CanonicalBytes(a) == CanonicalBytes(b) {
      CancelLeft("{", Members(Sort(a)), Members(Sort(b)));
      MembersInjective(Sort(a), Sort(b));
    }
    if AsMap(a) == AsMap(b) {
      AscendingUnique(Sort(a), Sort(b));
    }
  }
}
