/** The few Python text built-ins the lobby code relies on: `int(str)` for the
    capacity field of the creation form, `str(int)` for user mentions and
    `str.join` for position lists, member lists and mention lists. */
module PyText {
  import opened Wrappers

  /** CPython's default cap on the number of digits `int(str)` accepts in base 10
      (`sys.int_info.default_max_str_digits`); longer inputs raise ValueError. */
  const MaxStrDigits: nat := 4300

  predicate IsDigit(c: char) {
    '0' <= c <= '9'
  }

  /** The characters `int()` skips at both ends: the ASCII whitespace
      `\t \n \v \f \r` and space, and every non-ASCII character for which
      `str.isspace()` holds (CPython turns those into spaces before parsing).
      The ASCII separators U+001C..U+001F are not skipped, although
      `str.isspace()` holds for them. */
  predicate IsSpace(c: char) {
    || '\t' <= c <= '\r' || c == ' ' || c == '\U{85}' || c == '\U{A0}'
    || c == '\U{1680}' || '\U{2000}' <= c <= '\U{200A}' || c == '\U{2028}' || c == '\U{2029}'
    || c == '\U{202F}' || c == '\U{205F}' || c == '\U{3000}'
  }

  predicate AllDigits(s: string) {
    forall i :: 0 <= i < |s| ==> IsDigit(s[i])
  }

  function DigitChar(d: nat): (c: char)
    requires d < 10
    ensures IsDigit(c)
  {
    ('0' as int + d) as char
  }

  function DigitOf(c: char): nat
    requires IsDigit(c)
  {
    c as int - '0' as int
  }

  /** `str(n)` for a non-negative integer: its shortest decimal spelling. */
  function Decimal(n: nat): (s: string)
    decreases n
  {
    if n < 10 then [DigitChar(n)] else Decimal(n / 10) + [DigitChar(n % 10)]
  }

  /** The value of a string of decimal digits, most significant first. */
  function DigitsValue(s: string): nat
    requires AllDigits(s)
  {
    if s == [] then 0 else DigitsValue(s[..|s| - 1]) * 10 + DigitOf(s[|s| - 1])
  }

  /** Leading whitespace is dropped, and nothing else. */
  function StripLeft(s: string): (r: string)
    ensures |r| <= |s| && r == s[|s| - |r|..]
    ensures r != [] ==> !IsSpace(r[0])
    ensures forall i :: 0 <= i < |s| - |r| ==> IsSpace(s[i])
  {
    if s != [] && IsSpace(s[0]) then StripLeft(s[1..]) else s
  }

  /** Trailing whitespace is dropped, and nothing else. */
  function StripRight(s: string): (r: string)
    ensures |r| <= |s| && r == s[..|r|]
    ensures r != [] ==> !IsSpace(r[|r| - 1])
    ensures forall i :: |r| <= i < |s| ==> IsSpace(s[i])
  {
    if s != [] && IsSpace(s[|s| - 1]) then StripRight(s[..|s| - 1]) else s
  }

  function Strip(s: string): string {
    StripRight(StripLeft(s))
  }

  /** The digit part `int()` accepts is a digit followed by `DigitsRest`; the
      result is the digits with the underscores taken out. */
  function Digits(s: string): (r: Option<string>)
    ensures r.Some? ==> |r.value| > 0 && AllDigits(r.value)
  {
    if s != [] && IsDigit(s[0]) then Prepend(s[0], DigitsRest(s[1..])) else None
  }

  /** After a digit: more digits, where a single underscore may stand before a
      digit; anything else makes `int()` raise. */
  function DigitsRest(s: string): (r: Option<string>)
    ensures r.Some? ==> AllDigits(r.value)
    decreases |s|
  {
    if s == [] then Some([])
    else if IsDigit(s[0]) then Prepend(s[0], DigitsRest(s[1..]))
    else if s[0] == '_' && |s| >= 2 && IsDigit(s[1]) then Prepend(s[1], DigitsRest(s[2..]))
    else None
  }

  function Prepend(c: char, o: Option<string>): (r: Option<string>)
    requires IsDigit(c) && (o.Some? ==> AllDigits(o.value))
    ensures r.Some? ==> |r.value| > 0 && AllDigits(r.value)
  {
    match o
    case None => None
    case Some(rest) => Some([c] + rest)
  }

  /** Python's `int(s)` for a `str` argument in base 10: None where it raises
      ValueError. */
  function ParseInt(s: string): Option<int> {
    ParseSigned(Strip(s))
  }

  /** `int()` once the surrounding white space is gone: an optional sign, then
      the digits. */
  function ParseSigned(t: string): Option<int> {
    if t == [] then None
    else
      var magnitude := ParseUnsigned(if t[0] == '+' || t[0] == '-' then t[1..] else t);
      if magnitude.None? then None
      else if t[0] == '-' then Some(-(magnitude.value as int))
      else Some(magnitude.value)
  }

  function ParseUnsigned(body: string): Option<nat> {
    match Digits(body)
    case None => None
    case Some(ds) => if |ds| > MaxStrDigits then None else Some(DigitsValue(ds))
  }

  /** `sep.join(xs)`. */
  function Join(xs: seq<string>, sep: string): string {
    if |xs| == 0 then ""
    else if |xs| == 1 then xs[0]
    else xs[0] + sep + Join(xs[1..], sep)
  }

  // ---------------------------------------------------------------------------
  // Decimal spelling and parsing

  /** `str(n)` is the shortest spelling: digits only, reading back as n, with
      no leading zero unless n is zero itself. */
  lemma {:induction false} DecimalDigits(n: nat)
    ensures |Decimal(n)| > 0 && AllDigits(Decimal(n))
    ensures DigitsValue(Decimal(n)) == n
    ensures Decimal(n)[0] == '0' <==> n == 0
    ensures |Decimal(n)| == 1 || Decimal(n)[0] != '0'
    decreases n
  {
    if n >= 10 {
      DecimalDigits(n / 10);
      var s := Decimal(n);
      assert s[..|s| - 1] == Decimal(n / 10);
      assert s[0] == Decimal(n / 10)[0];
    }
  }

  lemma {:induction false} PlainDigitsRest(d: string)
    requires AllDigits(d)
    ensures DigitsRest(d) == Some(d)
    decreases |d|
  {
    if d != [] {
      PlainDigitsRest(d[1..]);
      assert [d[0]] + d[1..] == d;
    }
  }

  lemma {:induction false} StripUnpadded(s: string)
    requires |s| > 0 && !IsSpace(s[0]) && !IsSpace(s[|s| - 1])
    ensures Strip(s) == s
  {
    assert StripLeft(s) == s;
  }

  lemma {:induction false} UnsignedDigits(d: string)
    requires 0 < |d| <= MaxStrDigits && AllDigits(d)
    ensures ParseUnsigned(d) == Some(DigitsValue(d))
  {
    PlainDigitsRest(d[1..]);
    assert [d[0]] + d[1..] == d;
  }

  lemma {:induction false} ParseUnpadded(s: string)
    requires |s| > 0 && !IsSpace(s[0]) && !IsSpace(s[|s| - 1])
    ensures ParseInt(s) == ParseSigned(s)
  {
    StripUnpadded(s);
  }

  /** A plain digit string within the cap reads back as its value. */
  lemma {:induction false} ParseDigits(d: string, n: nat)
    requires 0 < |d| <= MaxStrDigits && AllDigits(d) && DigitsValue(d) == n
    ensures ParseInt(d) == Some(n)
  {
    ParseUnpadded(d);
    UnsignedDigits(d);
  }

  lemma {:induction false} SignedNegated(d: string)
    requires 0 < |d| <= MaxStrDigits && AllDigits(d)
    ensures ParseSigned("-" + d) == Some(-(DigitsValue(d) as int))
  {
    var m := "-" + d;
    assert m[0] == '-' && m[1..] == d;
    UnsignedDigits(d);
  }

  /** ... and with a minus sign in front, as its negation. */
  lemma {:induction false} ParseNegatedDigits(d: string, n: nat)
    requires 0 < |d| <= MaxStrDigits && AllDigits(d) && DigitsValue(d) == n
    ensures ParseInt("-" + d) == Some(-(n as int))
  {
    var m := "-" + d;
    assert m[0] == '-' && m[|m| - 1] == d[|d| - 1];
    ParseUnpadded(m);
    SignedNegated(d);
  }

  /** `int(str(n)) == n`, and `int("-" + str(n)) == -n`, whenever the spelling is
      within the digit cap. */
  lemma {:induction false} ParseDecimal(n: nat)
    requires |Decimal(n)| <= MaxStrDigits
    ensures ParseInt(Decimal(n)) == Some(n)
    ensures ParseInt("-" + Decimal(n)) == Some(-(n as int))
  {
    DecimalDigits(n);
    ParseDigits(Decimal(n), n);
    ParseNegatedDigits(Decimal(n), n);
  }

  lemma {:induction false} TwoDigitsValue(s: string)
    requires |s| == 2 && AllDigits(s)
    ensures DigitsValue(s) == 10 * DigitOf(s[0]) + DigitOf(s[1])
  {
    var h := s[..1];
    assert h[..0] == [];
    assert DigitsValue(h) == DigitOf(s[0]);
    assert s[..|s| - 1] == h;
  }

  /** A two-digit spelling, zero-padded or not, reads back as its value. */
  lemma {:induction false} ParseTwoDigits(s: string)
    requires |s| == 2 && AllDigits(s)
    ensures DigitsValue(s) == 10 * DigitOf(s[0]) + DigitOf(s[1])
    ensures ParseInt(s) == Some(DigitsValue(s))
  {
    ParseDigits(s, DigitsValue(s));
    TwoDigitsValue(s);
  }

  lemma {:induction false} StripIsInfix(s: string, k: int)
    requires 0 <= k < |Strip(s)|
    ensures Strip(s)[k] in s
  {
    var l := StripLeft(s);
    assert Strip(s)[k] == l[k];
    assert l[k] == s[|s| - |l| + k];
  }

  /** The modelled `int()`, which reads ASCII digits only, rejects every text
      that holds no ASCII digit at all. */
  lemma {:induction false} NoDigitNoInt(s: string)
    requires forall i :: 0 <= i < |s| ==> !IsDigit(s[i])
    ensures ParseInt(s) == None
  {
    var t := Strip(s);
    if t != [] {
      var body := if t[0] == '+' || t[0] == '-' then t[1..] else t;
      if body != [] {
        var k := if t[0] == '+' || t[0] == '-' then 1 else 0;
        assert body[0] == t[k];
        StripIsInfix(s, k);
      }
    }
  }

  /** A control character that `int()` does not skip, such as the file
      separator U+001C, in front of the digits makes it raise. */
  lemma {:induction false} UnskippedPrefixRefused(c: char, d: string)
    requires !IsSpace(c) && !IsDigit(c) && c != '+' && c != '-'
    requires AllDigits(d)
    ensures ParseInt([c] + d) == None
  {
    var s := [c] + d;
    assert StripLeft(s) == s;
    var t := Strip(s);
    if t != [] {
      assert t[0] == s[0] == c;
    }
  }

  // ---------------------------------------------------------------------------
  // str.join

  lemma {:induction false} JoinSnoc(xs: seq<string>, y: string, sep: string)
    requires |xs| > 0
    ensures Join(xs + [y], sep) == Join(xs, sep) + sep + y
    decreases |xs|
  {
    if |xs| > 1 {
      assert (xs + [y])[1..] == xs[1..] + [y];
      JoinSnoc(xs[1..], y, sep);
    }
  }

  /** The first piece is a prefix of the joined text. */
  lemma {:induction false} JoinPrefix(xs: seq<string>, sep: string)
    requires |xs| > 0
    ensures |Join(xs, sep)| >= |xs[0]| && Join(xs, sep)[..|xs[0]|] == xs[0]
  {
  }

  /** Joining two or more non-empty pieces is at least as long as two pieces and
      one separator. */
  lemma {:induction false} JoinLonger(xs: seq<string>, sep: string)
    requires |xs| >= 2
    requires forall i :: 0 <= i < |xs| ==> xs[i] != ""
    ensures |Join(xs, sep)| >= 2 + |sep|
  {
    JoinPrefix(xs[1..], sep);
  }
}
