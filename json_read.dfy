/** A reader for the JSON text the backend writes: decimal numbers and
    string literals as `json.dumps` spells them. It is the inverse the
    writers in `PyText` are proved against: whatever they write reads back
    as what they were given. On other text it is more lenient than JSON
    (leading zeros, raw control characters inside a literal). */
module JsonRead {
  import opened Common
  import opened PyText

  predicate IsDigit(c: char)
  {
    '0' <= c <= '9'
  }

  // ---------------------------------------------------------------------------
  // Numbers
  // ---------------------------------------------------------------------------

  /** The length of the run of digits `s` starts with. */
  function DigitRun(s: string): (k: nat)
    ensures k <= |s|
    ensures forall m :: 0 <= m < k ==> IsDigit(s[m])
    ensures k < |s| ==> !IsDigit(s[k])
  {
    if s != [] && IsDigit(s[0]) then 1 + DigitRun(s[1..]) else 0
  }

  /** A number at the start of `s`, and the text after it. */
  function ReadNat(s: string): Option<(nat, string)>
  {
    var k := DigitRun(s);
    if k == 0 then None else Some((DigitsValue(s[..k]), s[k..]))
  }

  lemma {:induction false} DigitRunOfDigits(ds: string, t: string)
    requires forall m :: 0 <= m < |ds| ==> IsDigit(ds[m])
    requires t == [] || !IsDigit(t[0])
    ensures DigitRun(ds + t) == |ds|
    decreases |ds|
  {
    if ds != [] {
      assert (ds + t)[1..] == ds[1..] + t;
      DigitRunOfDigits(ds[1..], t);
    }
  }

  /** `str(n)` reads back as `n`, up to the first character that is not a digit. */
  lemma DecimalReadsBack(n: nat, t: string)
    requires t == [] || !IsDigit(t[0])
    ensures ReadNat(Decimal(n) + t) == Some((n, t))
  {
    var ds := Decimal(n);
    DigitRunOfDigits(ds, t);
    assert (ds + t)[..|ds|] == ds;
    assert (ds + t)[|ds|..] == t;
  }

  // ---------------------------------------------------------------------------
  // String literals
  // ---------------------------------------------------------------------------

  function HexValue(c: char): (r: Option<nat>)
    ensures r.Some? ==> r.value < 16
  {
    if '0' <= c <= '9' then Some(c as int - '0' as int)
    else if 'a' <= c <= 'f' then Some(c as int - 'a' as int + 10)
    else if 'A' <= c <= 'F' then Some(c as int - 'A' as int + 10)
    else None
  }

  /** The number four hex digits at the start of `s` denote. */
  function Hex4(s: string): (r: Option<nat>)
    requires |s| >= 4
    ensures r.Some? ==> r.value < 0x10000
  {
    var a, b, c, d := HexValue(s[0]), HexValue(s[1]), HexValue(s[2]), HexValue(s[3]);
    if a.Some? && b.Some? && c.Some? && d.Some? then
      var x := a.value * 16 + b.value;
      assert x < 0x100;
      var y := x * 16 + c.value;
      assert y < 0x1000;
      Some(y * 16 + d.value)
    else None
  }

  lemma HexReadsBack(d: nat)
    requires d < 16
    ensures HexValue(HexChar(d)) == Some(d)
  {
  }

  lemma FourDigits(n: nat)
    requires n < 0x10000
    ensures ((n / 0x1000 * 16 + n / 0x100 % 0x10) * 16 + n / 0x10 % 0x10) * 16 + n % 0x10 == n
  {
    var q1 := n / 16;
    var q2 := q1 / 16;
    var q3 := q2 / 16;
    assert n == q1 * 16 + n % 16;
    assert q1 == q2 * 16 + q1 % 16;
    assert q2 == q3 * 16 + q2 % 16;
    assert q2 == n / 0x100;
    assert q3 == n / 0x1000;
    assert q1 % 16 == n / 0x10 % 0x10;
    assert q2 % 16 == n / 0x100 % 0x10;
  }

  /** A `\uXXXX` escape reads back as its code unit. */
  lemma UnicodeEscapeReadsBack(n: nat, t: string)
    requires n < 0x10000
    ensures var s := UnicodeEscape(n) + t;
      |s| >= 6 && s[0] == '\\' && s[1] == 'u' && Hex4(s[2..]) == Some(n)
  {
    HexReadsBack(n / 0x1000);
    HexReadsBack(n / 0x100 % 0x10);
    HexReadsBack(n / 0x10 % 0x10);
    HexReadsBack(n % 0x10);
    FourDigits(n);
  }

  /** One possibly escaped character at the start of `s`, and how many
      characters it takes. A `\uXXXX` for a high surrogate must be followed
      by one for a low surrogate, and the pair stands for one character. */
  function ReadChar(s: string): (r: Option<(char, nat)>)
    ensures r.Some? ==> 1 <= r.value.1 <= |s|
  {
    if s == [] then None
    else if s[0] != '\\' then Some((s[0], 1))
    else if |s| < 2 then None
    else if s[1] == '"' then Some(('"', 2))
    else if s[1] == '\\' then Some(('\\', 2))
    else if s[1] == '/' then Some(('/', 2))
    else if s[1] == 'n' then Some(('\n', 2))
    else if s[1] == 'r' then Some(('\r', 2))
    else if s[1] == 't' then Some(('\t', 2))
    else if s[1] == 'b' then Some((0x08 as char, 2))
    else if s[1] == 'f' then Some((0x0C as char, 2))
    else if s[1] != 'u' || |s| < 6 then None
    else match Hex4(s[2..])
      case None => None
      case Some(n) =>
        if n < 0xD800 || 0xE000 <= n then Some((n as char, 6))
        else if 0xDC00 <= n || |s| < 12 || s[6] != '\\' || s[7] != 'u' then None
        else match Hex4(s[8..])
          case None => None
          case Some(lo) =>
            if 0xDC00 <= lo < 0xE000 then Some((((n - 0xD800) * 0x400 + (lo - 0xDC00) + 0x10000) as char, 12))
            else None
  }

  /** What `json.dumps` writes for a character reads back as that character. */
  lemma EscapeCharReadsBack(c: char, t: string)
    ensures ReadChar(EscapeChar(c) + t) == Some((c, |EscapeChar(c)|))
  {
    var e := EscapeChar(c);
    var s := e + t;
    if Printable(c) || c == '\n' || c == '\r' || c == '\t' || c as int == 0x08 || c as int == 0x0C {
    } else if c as int < 0x10000 {
      UnicodeEscapeReadsBack(c as int, t);
    } else {
      SurrogatePairReadsBack(c, t);
    }
  }

  /** Two `\uXXXX` escapes, a high then a low surrogate, read back as the
      one character they encode in UTF-16. */
  lemma ReadSurrogatePair(s: string, hi: nat, lo: nat, c: char)
    requires |s| >= 12 && s[0] == '\\' && s[1] == 'u' && s[6] == '\\' && s[7] == 'u'
    requires Hex4(s[2..]) == Some(hi) && Hex4(s[8..]) == Some(lo)
    requires 0xD800 <= hi < 0xDC00 && 0xDC00 <= lo < 0xE000
    requires c as int == (hi - 0xD800) * 0x400 + (lo - 0xDC00) + 0x10000
    ensures ReadChar(s) == Some((c, 12))
  {
  }

  /** How `json.dumps` writes a character beyond the Basic Multilingual
      Plane: the two escapes of its UTF-16 surrogate pair. */
  lemma EscapeAstral(c: char)
    requires c as int >= 0x10000
    ensures var m := c as int - 0x10000;
      EscapeChar(c) == UnicodeEscape(0xD800 + m / 0x400) + UnicodeEscape(0xDC00 + m % 0x400)
  {
  }

  /** The code units of the surrogate pair of a character beyond the Basic
      Multilingual Plane, and the character they encode. */
  lemma SurrogateSplit(c: char)
    requires c as int >= 0x10000
    ensures var m := c as int - 0x10000; var hi, lo := 0xD800 + m / 0x400, 0xDC00 + m % 0x400;
      && 0xD800 <= hi < 0xDC00 && 0xDC00 <= lo < 0xE000
      && c as int == (hi - 0xD800) * 0x400 + (lo - 0xDC00) + 0x10000
  {
  }

  lemma ConcatAssoc(a: string, b: string, c: string)
    ensures a + b + c == a + (b + c)
  {
  }

  /** Two escapes `a` and `b` of the code units of a surrogate pair, one
      after the other, read back as the character the pair encodes. */
  lemma EscapePairRead(a: string, b: string, t: string, hi: nat, lo: nat, c: char)
    requires |a| == 6
    requires var s := a + (b + t); |s| >= 6 && s[0] == '\\' && s[1] == 'u' && Hex4(s[2..]) == Some(hi)
    requires var u := b + t; |u| >= 6 && u[0] == '\\' && u[1] == 'u' && Hex4(u[2..]) == Some(lo)
    requires 0xD800 <= hi < 0xDC00 && 0xDC00 <= lo < 0xE000
    requires c as int == (hi - 0xD800) * 0x400 + (lo - 0xDC00) + 0x10000
    ensures ReadChar(a + b + t) == Some((c, 12))
  {
    var u := b + t;
    var s := a + u;
    ConcatAssoc(a, b, t);
    assert s[8..] == u[2..];
    assert s[6] == u[0] && s[7] == u[1];
    ReadSurrogatePair(s, hi, lo, c);
  }

  /** The `\uXXXX` escapes of a surrogate pair read back as its character. */
  lemma EscapesOfPairRead(hi: nat, lo: nat, c: char, t: string)
    requires 0xD800 <= hi < 0xDC00 && 0xDC00 <= lo < 0xE000
    requires c as int == (hi - 0xD800) * 0x400 + (lo - 0xDC00) + 0x10000
    ensures ReadChar(UnicodeEscape(hi) + UnicodeEscape(lo) + t) == Some((c, 12))
  {
    UnicodeEscapeReadsBack(hi, UnicodeEscape(lo) + t);
    UnicodeEscapeReadsBack(lo, t);
    EscapePairRead(UnicodeEscape(hi), UnicodeEscape(lo), t, hi, lo, c);
  }

  lemma SurrogatePairReadsBack(c: char, t: string)
    requires c as int >= 0x10000
    ensures ReadChar(EscapeChar(c) + t) == Some((c, 12))
  {
    var m := c as int - 0x10000;
    var hi, lo := 0xD800 + m / 0x400, 0xDC00 + m % 0x400;
    SurrogateSplit(c);
    EscapeAstral(c);
    EscapesOfPairRead(hi, lo, c, t);
  }

  /** The body of a string literal up to its closing quote, and the text
      after the quote. */
  function ReadStringBody(s: string): Option<(string, string)>
    decreases |s|
  {
    if s == [] then None
    else if s[0] == '"' then Some(([], s[1..]))
    else match ReadChar(s)
      case None => None
      case Some((c, n)) =>
        match ReadStringBody(s[n..])
        case None => None
        case Some((v, rest)) => Some(([c] + v, rest))
  }

  /** A string literal at the start of `s`, and the text after it. */
  function ReadString(s: string): Option<(string, string)>
  {
    if s != [] && s[0] == '"' then ReadStringBody(s[1..]) else None
  }

  lemma {:induction false} EscapeAllReadsBack(v: string, t: string)
    ensures ReadStringBody(EscapeAll(v) + "\"" + t) == Some((v, t))
    decreases |v|
  {
    var s := EscapeAll(v) + "\"" + t;
    if v == [] {
      assert s == "\"" + t;
    } else {
      var e := EscapeChar(v[0]);
      var rest := EscapeAll(v[1..]) + "\"" + t;
      assert s == e + rest;
      assert e[0] == '\\' || e == [v[0]];
      EscapeCharReadsBack(v[0], rest);
      assert s[|e|..] == rest;
      EscapeAllReadsBack(v[1..], t);
      assert [v[0]] + v[1..] == v;
    }
  }

  /** `json.dumps(v)` reads back as `v`, whatever follows it. */
  lemma QuoteReadsBack(v: string, t: string)
    ensures ReadString(Quote(v) + t) == Some((v, t))
  {
    var s := Quote(v) + t;
    assert s[1..] == EscapeAll(v) + "\"" + t;
    EscapeAllReadsBack(v, t);
  }

  /** Distinct strings are written as distinct literals. */
  lemma QuoteInjective(a: string, b: string)
    requires Quote(a) == Quote(b)
    ensures a == b
  {
    QuoteReadsBack(a, []);
    QuoteReadsBack(b, []);
    assert Quote(a) + [] == Quote(b) + [];
  }

  /** Distinct numbers are written as distinct digit strings. */
  lemma DecimalInjective(m: nat, n: nat)
    requires Decimal(m) == Decimal(n)
    ensures m == n
  {
  }
}
