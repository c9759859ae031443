/** Decimal numbers, dotted quads and cutting strings at a delimiter, as the programs' parsers
    and formatters see them. */
module Text {
  import opened Net

  // ----- Cutting at the first delimiter -----

  /** split_once, and indexOf with the two slices around it. */
  function Cut(s: string, c: char): Option<(string, string)> {
    if s == "" then None
    else if s[0] == c then Some(("", s[1..]))
    else
      match Cut(s[1..], c)
      case None => None
      case Some((front, back)) => Some(([s[0]] + front, back))
  }

  lemma {:induction false} CutSound(s: string, c: char)
    ensures Cut(s, c).None? <==> c !in s
    ensures Cut(s, c).Some? ==>
              var (front, back) := Cut(s, c).value;
              s == front + [c] + back && c !in front
  {
    if s != "" {
      assert s == [s[0]] + s[1..];
      CutSound(s[1..], c);
    }
  }

  lemma {:induction false} CutOf(front: string, c: char, back: string)
    requires c !in front
    ensures Cut(front + [c] + back, c) == Some((front, back))
  {
    var s := front + [c] + back;
    if front == "" {
      assert s[1..] == back;
    } else {
      assert s[1..] == front[1..] + [c] + back;
      CutOf(front[1..], c, back);
      assert front == [front[0]] + front[1..];
    }
  }

  /** A field that avoids the delimiter can be read back. */
  lemma {:induction false} FieldUnique(a: string, b: string, c: char, a': string, b': string)
    requires c !in a && c !in a' && a + [c] + b == a' + [c] + b'
    ensures a == a' && b == b'
  {
    CutOf(a, c, b);
    CutOf(a', c, b');
  }

  // ----- Decimal numbers -----

  predicate IsDigit(c: char) { '0' <= c <= '9' }

  predicate AllDigits(s: string) { forall i :: 0 <= i < |s| ==> IsDigit(s[i]) }

  function DigitValue(c: char): (d: nat)
    requires IsDigit(c)
    ensures d < 10
  {
    c as nat - '0' as nat
  }

  function Digit(d: nat): (c: char)
    requires d < 10
    ensures IsDigit(c) && DigitValue(c) == d
  {
    ('0' as nat + d) as char
  }

  function Number(s: string): nat
    requires AllDigits(s)
  {
    if s == "" then 0 else 10 * Number(s[..|s| - 1]) + DigitValue(s[|s| - 1])
  }

  function Decimal(n: nat): (s: string)
    ensures s != "" && AllDigits(s)
  {
    if n < 10 then [Digit(n)] else Decimal(n / 10) + [Digit(n % 10)]
  }

  predicate Canonical(s: string) {
    s != "" && AllDigits(s) && (|s| > 1 ==> s[0] != '0')
  }

  lemma {:induction false} DecimalReads(n: nat)
    ensures Number(Decimal(n)) == n && Canonical(Decimal(n))
    ensures n > 0 ==> Decimal(n)[0] != '0'
    ensures n < 100 ==> |Decimal(n)| <= 2
    ensures n < 1000 ==> |Decimal(n)| <= 3
  {
    if n >= 10 {
      DecimalReads(n / 10);
      assert Decimal(n)[..|Decimal(n)| - 1] == Decimal(n / 10);
    } else {
      assert Decimal(n)[..0] == "";
      assert Number(Decimal(n)[..0]) == 0;
      if n > 0 { assert DigitValue('0') == 0; }
    }
  }

  lemma {:induction false} NumberPrints(s: string)
    requires Canonical(s)
    ensures Decimal(Number(s)) == s
    ensures s[0] != '0' ==> Number(s) > 0
  {
    var n := |s| - 1;
    if n == 0 {
      assert s[..0] == "" && Number(s[..0]) == 0;
      assert s == [Digit(Number(s))];
      if s[0] != '0' { assert s[0] as nat > '0' as nat; }
    } else {
      NumberPrints(s[..n]);
      assert s == s[..n] + [s[n]];
      assert s[n] == Digit(DigitValue(s[n]));
    }
  }

  // ----- Dotted quads -----

  function Bytes4(a: Ipv4): (nat, nat, nat, nat) {
    var a3 := a / 256;
    var a2 := a3 / 256;
    (a2 / 256, a2 % 256, a3 % 256, a % 256)
  }

  /** The text of an address, as Ipv4Addr's Display prints it. */
  function Dotted(a: Ipv4): string {
    var (p, q, r, s) := Bytes4(a);
    Decimal(p) + "." + (Decimal(q) + "." + (Decimal(r) + "." + Decimal(s)))
  }

  /** The four octets in decimal, the most significant one first. */
  lemma {:induction false} DottedOctets(p: nat, q: nat, r: nat, s: nat)
    requires p < 256 && q < 256 && r < 256 && s < 256
    ensures Dotted(0x100_0000 * p + 0x1_0000 * q + 0x100 * r + s)
         == Decimal(p) + "." + Decimal(q) + "." + Decimal(r) + "." + Decimal(s)
  {
    hide Decimal;
    FromOctetsBytes(p, q, r, s);
    assert 256 * (256 * (256 * p + q) + r) + s == 0x100_0000 * p + 0x1_0000 * q + 0x100 * r + s;
  }

  /** One to three digits, no superfluous leading zero, at most 255. */
  function ParseOctet(s: string): Option<nat> {
    if Canonical(s) && |s| <= 3 && Number(s) <= 255 then Some(Number(s)) else None
  }

  /** Ipv4Addr's FromStr. */
  function ParseIpv4(s: string): (a: Option<Ipv4>) {
    match Cut(s, '.')
    case None => None
    case Some((p, s1)) =>
      match Cut(s1, '.')
      case None => None
      case Some((q, s2)) =>
        match Cut(s2, '.')
        case None => None
        case Some((r, s3)) => FromOctets(ParseOctet(p), ParseOctet(q), ParseOctet(r), ParseOctet(s3))
  }

  function FromOctets(p: Option<nat>, q: Option<nat>, r: Option<nat>, s: Option<nat>): Option<Ipv4> {
    if p.Some? && q.Some? && r.Some? && s.Some?
       && p.value < 256 && q.value < 256 && r.value < 256 && s.value < 256 then
      Some(256 * (256 * (256 * p.value + q.value) + r.value) + s.value)
    else None
  }

  lemma {:induction false} OctetReads(n: nat)
    requires n < 256
    ensures ParseOctet(Decimal(n)) == Some(n) && '.' !in Decimal(n)
  {
    DecimalReads(n);
  }

  lemma {:induction false} OctetPrints(s: string)
    requires ParseOctet(s).Some?
    ensures Decimal(ParseOctet(s).value) == s && ParseOctet(s).value < 256
  {
    NumberPrints(s);
  }

  /** Exactly the printed addresses parse, each to the address it was printed from. */
  lemma {:induction false} DottedReads(a: Ipv4)
    ensures ParseIpv4(Dotted(a)) == Some(a)
  {
    hide Decimal, ParseOctet;
    var (p, q, r, s) := Bytes4(a);
    OctetReads(p);
    OctetReads(q);
    OctetReads(r);
    OctetReads(s);
    CutOf(Decimal(r), '.', Decimal(s));
    CutOf(Decimal(q), '.', Decimal(r) + "." + Decimal(s));
    CutOf(Decimal(p), '.', Decimal(q) + "." + (Decimal(r) + "." + Decimal(s)));
  }

  lemma {:induction false} FromOctetsBytes(p: nat, q: nat, r: nat, s: nat)
    requires p < 256 && q < 256 && r < 256 && s < 256
    ensures Bytes4(256 * (256 * (256 * p + q) + r) + s) == (p, q, r, s)
  {
    LastByte(p, q);
    LastByte(256 * p + q, r);
    LastByte(256 * (256 * p + q) + r, s);
  }

  lemma {:induction false} LastByte(x: nat, d: nat)
    requires d < 256
    ensures (256 * x + d) / 256 == x && (256 * x + d) % 256 == d
  {
  }

  lemma {:induction false} ParsedPrints(text: string)
    requires ParseIpv4(text).Some?
    ensures Dotted(ParseIpv4(text).value) == text
  {
    hide Decimal, ParseOctet;
    CutSound(text, '.');
    var (p, s1) := Cut(text, '.').value;
    CutSound(s1, '.');
    var (q, s2) := Cut(s1, '.').value;
    CutSound(s2, '.');
    var (r, s) := Cut(s2, '.').value;
    OctetPrints(p);
    OctetPrints(q);
    OctetPrints(r);
    OctetPrints(s);
    FromOctetsBytes(ParseOctet(p).value, ParseOctet(q).value, ParseOctet(r).value, ParseOctet(s).value);
  }

  /** The characters of a printed address. */
  lemma {:induction false} DottedCharacters(a: Ipv4, c: char)
    requires !IsDigit(c) && c != '.'
    ensures c !in Dotted(a) && Dotted(a) != ""
  {
  }

  // ----- White space -----

  /** char::is_whitespace */
  predicate RustSpace(c: char) {
    || '\U{9}' <= c <= '\U{D}' || c == ' ' || c == '\U{85}' || c == '\U{A0}' || c == '\U{1680}'
    || '\U{2000}' <= c <= '\U{200A}' || c == '\U{2028}' || c == '\U{2029}' || c == '\U{202F}'
    || c == '\U{205F}' || c == '\U{3000}'
  }

  /** What `\s` matches and trim() removes in JavaScript. */
  predicate JsSpace(c: char) {
    || '\U{9}' <= c <= '\U{D}' || c == ' ' || c == '\U{A0}' || c == '\U{1680}'
    || '\U{2000}' <= c <= '\U{200A}' || c == '\U{2028}' || c == '\U{2029}' || c == '\U{202F}'
    || c == '\U{205F}' || c == '\U{3000}' || c == '\U{FEFF}'
  }

  function TrimStart(space: char -> bool, s: string): string {
    if s != "" && space(s[0]) then TrimStart(space, s[1..]) else s
  }

  function TrimEnd(space: char -> bool, s: string): string {
    if s != "" && space(s[|s| - 1]) then TrimEnd(space, s[..|s| - 1]) else s
  }

  function Trim(space: char -> bool, s: string): string {
    TrimEnd(space, TrimStart(space, s))
  }

  lemma {:induction false} TrimNothing(space: char -> bool, s: string)
    requires s == "" || (!space(s[0]) && !space(s[|s| - 1]))
    ensures Trim(space, s) == s
  {
  }

  /** The characters up to the first white space. */
  function Word(space: char -> bool, s: string): (w: string)
    ensures |w| <= |s| && s[..|w|] == w
  {
    if s == "" || space(s[0]) then "" else [s[0]] + Word(space, s[1..])
  }

  /** split_whitespace */
  function Tokens(space: char -> bool, s: string): seq<string>
    decreases |s|
  {
    var t := TrimStart(space, s);
    TrimStartShorter(space, s);
    if t == "" then []
    else
      var w := Word(space, t);
      WordNotEmpty(space, s);
      [w] + Tokens(space, t[|w|..])
  }

  lemma {:induction false} TrimStartShorter(space: char -> bool, s: string)
    ensures |TrimStart(space, s)| <= |s|
    ensures TrimStart(space, s) == "" || !space(TrimStart(space, s)[0])
  {
    if s != "" && space(s[0]) { TrimStartShorter(space, s[1..]); }
  }

  lemma {:induction false} WordNotEmpty(space: char -> bool, s: string)
    ensures TrimStart(space, s) != "" ==> Word(space, TrimStart(space, s)) != ""
  {
    TrimStartShorter(space, s);
  }

  ghost predicate NoneOf(space: char -> bool, s: string) {
    forall i :: 0 <= i < |s| ==> !space(s[i])
  }

  lemma {:induction false} WordOf(space: char -> bool, w: string, rest: string)
    requires NoneOf(space, w) && (rest == "" || space(rest[0]))
    ensures Word(space, w + rest) == w
  {
    if w == "" {
      assert w + rest == rest;
    } else {
      assert (w + rest)[1..] == w[1..] + rest;
      WordOf(space, w[1..], rest);
    }
  }

  lemma {:induction false} WordClean(space: char -> bool, s: string)
    ensures NoneOf(space, Word(space, s))
  {
    if s != "" && !space(s[0]) { WordClean(space, s[1..]); }
  }

  /** Tokens contain no white space. */
  lemma {:induction false} TokensClean(space: char -> bool, s: string)
    ensures forall i :: 0 <= i < |Tokens(space, s)| ==> NoneOf(space, Tokens(space, s)[i])
    decreases |s|
  {
    var t := TrimStart(space, s);
    TrimStartShorter(space, s);
    if t != "" {
      WordClean(space, t);
      WordNotEmpty(space, s);
      TokensClean(space, t[|Word(space, t)|..]);
    }
  }

  lemma {:induction false} OneToken(space: char -> bool, w: string)
    requires w != "" && NoneOf(space, w)
    ensures Tokens(space, w) == [w]
  {
    assert w + "" == w;
    WordOf(space, w, "");
    assert Tokens(space, w[|w|..]) == [];
  }

  /** A word, a blank and more text. */
  lemma {:induction false} NextToken(space: char -> bool, w: string, rest: string)
    requires w != "" && NoneOf(space, w) && space(' ')
    ensures Tokens(space, w + " " + rest) == [w] + Tokens(space, rest)
  {
    var s := w + " " + rest;
    assert s == w + (" " + rest);
    WordOf(space, w, " " + rest);
    assert s[|w|..] == " " + rest;
    assert (" " + rest)[1..] == rest;
    SkipBlank(space, rest);
  }

  lemma {:induction false} SkipBlank(space: char -> bool, rest: string)
    requires space(' ')
    ensures Tokens(space, " " + rest) == Tokens(space, rest)
  {
    assert (" " + rest)[1..] == rest;
  }
}
