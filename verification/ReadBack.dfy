/** What the console reads back from the `[client]` section it has written, for every client that
    it can have read before, and exactly when that is the same client. */
module ReadBack {
  import opened Net
  import opened Text
  import opened ServerIni
  import Bindings

  // ----- The clients the console can read -----

  predicate Trimmed(s: string) {
    s == "" || (!JsSpace(s[0]) && !JsSpace(s[|s| - 1]))
  }

  ghost predicate AddressAsRead(a: string) {
    Trimmed(a) && '=' !in a && (a != "" ==> a[0] != '#' && a[0] != ';')
  }

  ghost predicate FingerprintAsRead(f: string) {
    NoneOf(JsSpace, f) && LowerCase(Bindings.WithoutColons(f)) == f
  }

  /** What holds of every client that is read from a file, and of every client that is entered:
      no field is split or trimmed any further, and a password comes with a login. */
  ghost predicate AsRead(c: Client) {
    && AddressAsRead(c.vpnAddress) && FingerprintAsRead(c.fingerprint) && NoneOf(JsSpace, c.loginId)
    && (c.password.Some? ==> c.loginId != "" && c.password.value != "" && NoneOf(JsSpace, c.password.value))
  }

  lemma {:induction false} TrimEndIs(space: char -> bool, s: string)
    ensures TrimEnd(space, s) <= s
    ensures TrimEnd(space, s) != "" ==> !space(TrimEnd(space, s)[|TrimEnd(space, s)| - 1])
  {
    if s != "" && space(s[|s| - 1]) { TrimEndIs(space, s[..|s| - 1]); }
  }

  lemma {:induction false} TrimStartIs(space: char -> bool, s: string)
    ensures |TrimStart(space, s)| <= |s| && TrimStart(space, s) == s[|s| - |TrimStart(space, s)|..]
    ensures TrimStart(space, s) != "" ==> !space(TrimStart(space, s)[0])
    ensures s != "" && !space(s[0]) ==> TrimStart(space, s) == s
  {
    if s != "" && space(s[0]) { TrimStartIs(space, s[1..]); }
  }

  /** A trimmed text is a stretch of the text, and its first character is the first one unless
      that is white space. */
  lemma {:induction false} TrimIs(s: string)
    ensures Trimmed(Trim(JsSpace, s))
    ensures forall c :: c in Trim(JsSpace, s) ==> c in s
    ensures s != "" && !JsSpace(s[0]) && Trim(JsSpace, s) != "" ==> Trim(JsSpace, s)[0] == s[0]
  {
    hide JsSpace, TrimStart, TrimEnd;
    TrimStartIs(JsSpace, s);
    TrimEndIs(JsSpace, TrimStart(JsSpace, s));
  }

  lemma {:induction false} KeyAsRead(line: string)
    requires var content := Trim(JsSpace, line);
             content != "" && content[0] != '#' && content[0] != ';' && Cut(content, '=').Some?
    ensures AddressAsRead(Trim(JsSpace, Cut(Trim(JsSpace, line), '=').value.0))
  {
    hide Trim, Cut, JsSpace;
    var content := Trim(JsSpace, line);
    TrimIs(line);
    CutSound(content, '=');
    var front := Cut(content, '=').value.0;
    TrimIs(front);
    var key := Trim(JsSpace, front);
    if key != "" {
      assert key[0] in key;
      assert key[0] in front && content[0] == front[0];
    }
  }

  lemma {:induction false} LowerIs(s: string)
    ensures LowerCase(LowerCase(s)) == LowerCase(s)
    ensures NoneOf(JsSpace, s) ==> NoneOf(JsSpace, LowerCase(s))
    ensures ':' !in s ==> ':' !in LowerCase(s)
  {
    forall i | 0 <= i < |s|
      ensures LowerCase(s)[i] == ':' <==> s[i] == ':'
      ensures !JsSpace(s[i]) ==> !JsSpace(LowerCase(s)[i])
    {
    }
  }

  lemma {:induction false} WithoutColonsIs(s: string)
    ensures ':' !in Bindings.WithoutColons(s)
    ensures NoneOf(JsSpace, s) ==> NoneOf(JsSpace, Bindings.WithoutColons(s))
  {
    hide JsSpace;
    if s != "" { WithoutColonsIs(s[1..]); }
  }

  /** What remains of a fingerprint, or of anything taken for one. */
  lemma {:induction false} NormalForm(s: string)
    requires NoneOf(JsSpace, s)
    ensures FingerprintAsRead(LowerCase(Bindings.WithoutColons(s)))
  {
    hide JsSpace, LowerCase, NoneOf;
    WithoutColonsIs(s);
    var bare := Bindings.WithoutColons(s);
    LowerIs(bare);
    var lower := LowerCase(bare);
    forall i | 0 <= i < |lower| ensures lower[i] != ':' { assert lower[i] in lower; }
    NoColons(lower);
  }

  lemma {:induction false} TokensNotEmpty(space: char -> bool, s: string)
    ensures forall i :: 0 <= i < |Tokens(space, s)| ==> Tokens(space, s)[i] != ""
    decreases |s|
  {
    var t := TrimStart(space, s);
    TrimStartShorter(space, s);
    if t != "" {
      WordNotEmpty(space, s);
      TokensNotEmpty(space, t[|Word(space, t)|..]);
    }
  }

  lemma {:induction false} PairAsRead(pair: Pair)
    requires AddressAsRead(pair.key)
    ensures AsRead(ClientOf(pair))
  {
    hide Tokens, JsSpace, LowerCase, Bindings.WithoutColons, AddressAsRead;
    TokensClean(JsSpace, pair.value);
    TokensNotEmpty(JsSpace, pair.value);
    var fields := if pair.value == "" then [""] else Tokens(JsSpace, pair.value);
    assert NoneOf(JsSpace, "");
    NormalForm(if fields == [] then "" else fields[0]);
    EmptyFingerprint();
  }

  lemma {:induction false} EmptyFingerprint()
    ensures LowerCase(Bindings.WithoutColons("")) == "" && FingerprintAsRead("")
  {
  }

  lemma {:induction false} LineAsRead(line: string)
    ensures |ParseLine(line)| <= 1
    ensures forall i :: 0 <= i < |ParseLine(line)| ==> AsRead(ClientOf(ParseLine(line)[i]))
  {
    hide Trim, Cut, AsRead, AddressAsRead, ClientOf;
    if ParseLine(line) != [] {
      KeyAsRead(line);
      PairAsRead(ParseLine(line)[0]);
    }
  }

  lemma {:induction false} BodyAsRead(body: Lines)
    ensures forall i :: 0 <= i < |ClientsOf(ParseBody(body))| ==> AsRead(ClientsOf(ParseBody(body))[i])
  {
    hide AsRead, ParseLine, ClientOf;
    if body != [] {
      var n := |body| - 1;
      BodyAsRead(body[..n]);
      var line := ParseLine(body[n]);
      LineAsRead(body[n]);
      if line == [] {
        assert ParseBody(body[..n]) + [] == ParseBody(body[..n]);
      } else {
        assert line == [line[0]];
        ClientsPush(ParseBody(body[..n]), line[0]);
      }
    }
  }

  /** Whatever the file holds. */
  lemma {:induction false} ClientsAsRead(lines: Lines)
    ensures forall i :: 0 <= i < |ReadClients(lines)| ==> AsRead(ReadClients(lines)[i])
  {
    hide AsRead, ParseBody, ClientsOf;
    if Start(lines).Some? {
      var start := Start(lines).value;
      BodyAsRead(lines[start + 1..NextHeader(lines, start + 1)]);
    } else {
      assert ClientsOf([]) == [] by { BodyAsRead([]); EmptyReads(); }
    }
  }

  lemma {:induction false} EmptyReads()
    ensures ClientsOf([]) == []
  {
  }

  lemma {:induction false} PlainAsRead(c: Client)
    requires Plain(c, JsSpace)
    ensures AsRead(c)
  {
    var a := c.vpnAddress;
    assert !JsSpace(a[0]) && !JsSpace(a[|a| - 1]) && '=' !in a;
    HexStays(c.fingerprint);
  }

  // ----- One printed line -----

  function PasswordText(c: Client): string {
    if c.password.Some? then c.password.value else "undefined"
  }

  /** What the console reads from the line it prints for a client. */
  function Again(c: Client): Client {
    if c.loginId == "" then c
    else if c.fingerprint != "" then c.(password := Some(PasswordText(c)))
    else Client(c.vpnAddress, LowerCase(Bindings.WithoutColons(c.loginId)), PasswordText(c), None)
  }

  /** A line that opens a section when it is printed, whatever it was before. */
  predicate OpensSection(c: Client) {
    var a, v := c.vpnAddress, ValueOf(c);
    && a != "" && a[0] == '[' && ']' !in a
    && v != "" && v[|v| - 1] == ']' && ']' !in v[..|v| - 1]
  }

  /** Nothing is lost: a login comes with a password and a fingerprint, and the line is not taken
      for a section's first line. */
  predicate Survives(c: Client) {
    && (c.loginId == "" || (c.password.Some? && c.fingerprint != ""))
    && !OpensSection(c)
  }

  /** The printed line without white space at its ends, before and after the first '='. */
  function FrontText(a: string): string { if a == "" then "" else a + " " }

  function BackText(v: string): string { if v == "" then "" else " " + v }

  lemma {:induction false} TrimEndBlank(s: string)
    requires s != "" && !JsSpace(s[|s| - 1])
    ensures TrimEnd(JsSpace, s) == s && TrimEnd(JsSpace, s + " ") == s
  {
    assert (s + " ")[..|s|] == s;
  }

  lemma {:induction false} TrimStartPrinted(a: string, v: string)
    requires Trimmed(a)
    ensures TrimStart(JsSpace, a + " = " + v) == FrontText(a) + "= " + v
  {
    hide JsSpace;
    var line, start := a + " = " + v, FrontText(a) + "= " + v;
    TrimStartIs(JsSpace, line);
    if a == "" {
      assert line[1..] == start && start[0] == '=';
      assert JsSpace(' ') && !JsSpace('=') by { SpaceIs(); }
    } else {
      assert line == start;
    }
  }

  lemma {:induction false} SpaceIs()
    ensures JsSpace(' ') && !JsSpace('=')
  {
  }

  lemma {:induction false} TrimPrinted(a: string, v: string)
    requires Trimmed(a) && (v != "" ==> !JsSpace(v[|v| - 1]))
    ensures Trim(JsSpace, a + " = " + v) == FrontText(a) + ['='] + BackText(v)
  {
    hide TrimStart, TrimEnd, JsSpace, FrontText;
    TrimStartPrinted(a, v);
    SpaceIs();
    var front := FrontText(a) + "=";
    if v == "" {
      assert FrontText(a) + "= " + v == front + " ";
      assert front + BackText(v) == front;
      TrimEndBlank(front);
    } else {
      assert FrontText(a) + "= " + v == front + BackText(v);
      TrimEndBlank(front + BackText(v));
    }
  }

  lemma {:induction false} TrimFront(a: string)
    requires Trimmed(a)
    ensures Trim(JsSpace, FrontText(a)) == a
  {
    hide TrimEnd, TrimStart;
    if a == "" { TrimNothing(JsSpace, ""); } else { TrimAfter(JsSpace, a); }
  }

  /** The value of the line as the console takes it. */
  function ValueAgain(c: Client): string {
    if c.loginId != "" && c.fingerprint == "" then c.loginId + " " + PasswordText(c) else ValueOf(c)
  }

  lemma {:induction false} UndefinedWord()
    ensures NoneOf(JsSpace, "undefined")
  {
  }

  lemma {:induction false} PasswordTextIs(c: Client)
    requires AsRead(c)
    ensures PasswordText(c) != "" && NoneOf(JsSpace, PasswordText(c))
  {
    hide JsSpace;
    UndefinedWord();
  }

  lemma {:induction false} ValueEnds(c: Client)
    requires AsRead(c)
    ensures ValueOf(c) != "" ==> !JsSpace(ValueOf(c)[|ValueOf(c)| - 1])
    ensures ValueAgain(c) != "" ==> !JsSpace(ValueAgain(c)[0])
    ensures ValueOf(c) == ValueAgain(c) || ValueOf(c) == " " + ValueAgain(c)
    ensures Trimmed(ValueAgain(c))
  {
    hide JsSpace;
    PasswordTextIs(c);
    var p := PasswordText(c);
    if c.loginId != "" {
      assert ValueOf(c) == c.fingerprint + " " + (c.loginId + " " + p);
      assert ValueOf(c)[|ValueOf(c)| - 1] == p[|p| - 1];
      assert ValueAgain(c)[|ValueAgain(c)| - 1] == p[|p| - 1];
    }
  }

  lemma {:induction false} TrimBack(c: Client)
    requires AsRead(c)
    ensures Trim(JsSpace, BackText(ValueOf(c))) == ValueAgain(c)
  {
    hide AsRead, ValueOf, ValueAgain;
    ValueEnds(c);
    var v, w := ValueOf(c), ValueAgain(c);
    if v == "" {
      TrimNothing(JsSpace, "");
    } else if v == w {
      TrimBefore(JsSpace, w);
    } else {
      TrimTwice(w);
    }
  }

  lemma {:induction false} TrimTwice(w: string)
    requires Trimmed(w)
    ensures Trim(JsSpace, " " + (" " + w)) == w
  {
    var s := " " + w;
    assert (" " + s)[1..] == s && s[1..] == w;
    assert TrimStart(JsSpace, s) == TrimStart(JsSpace, w);
    assert TrimStart(JsSpace, " " + s) == TrimStart(JsSpace, s);
  }

  lemma {:induction false} TokensAgain(c: Client)
    requires AsRead(c)
    ensures var p := PasswordText(c);
            Tokens(JsSpace, ValueAgain(c))
            == if c.loginId == "" then (if c.fingerprint == "" then [] else [c.fingerprint])
               else if c.fingerprint == "" then [c.loginId, p] else [c.fingerprint, c.loginId, p]
  {
    hide Tokens;
    PasswordTextIs(c);
    var p := PasswordText(c);
    if c.loginId == "" {
      if c.fingerprint == "" { NoTokens(); } else { OneToken(JsSpace, c.fingerprint); }
    } else {
      OneToken(JsSpace, p);
      NextToken(JsSpace, c.loginId, p);
      if c.fingerprint != "" { NextToken(JsSpace, c.fingerprint, c.loginId + " " + p); }
    }
  }

  lemma {:induction false} NoTokens()
    ensures Tokens(JsSpace, "") == []
  {
  }

  lemma {:induction false} ClientAgain(c: Client)
    requires AsRead(c)
    ensures ClientOf(Pair(c.vpnAddress, ValueAgain(c))) == Again(c)
  {
    hide Tokens, JsSpace, LowerCase, Bindings.WithoutColons, AddressAsRead;
    TokensAgain(c);
    EmptyFingerprint();
    PasswordTextIs(c);
  }

  /** A printed line is one client again. */
  lemma {:induction false} PrintedReadsAgain(c: Client)
    requires AsRead(c)
    ensures ParseLine(Print(c)) == [Pair(c.vpnAddress, ValueAgain(c))]
    ensures ClientOf(Pair(c.vpnAddress, ValueAgain(c))) == Again(c)
  {
    hide Trim, Cut, ClientOf, ValueOf, ValueAgain, Again, FingerprintAsRead, JsSpace;
    ValueEnds(c);
    TrimPrinted(c.vpnAddress, ValueOf(c));
    var front, back := FrontText(c.vpnAddress), BackText(ValueOf(c));
    var content := front + ['='] + back;
    assert content[0] == if c.vpnAddress == "" then '=' else c.vpnAddress[0];
    CutOf(front, '=', back);
    TrimFront(c.vpnAddress);
    TrimBack(c);
    ClientAgain(c);
  }

  lemma {:induction false} UndefinedStays()
    ensures LowerCase(Bindings.WithoutColons("undefined")) != ""
  {
    NoColons("undefined");
    assert |LowerCase("undefined")| == 9;
  }

  /** It is the same client exactly when a login comes with a password and a fingerprint. */
  lemma {:induction false} AgainIff(c: Client)
    requires AsRead(c)
    ensures Again(c) == c <==> c.loginId == "" || (c.password.Some? && c.fingerprint != "")
  {
    hide JsSpace, LowerCase, Bindings.WithoutColons;
    PasswordTextIs(c);
    UndefinedStays();
  }

  /** When the printed line opens a section. */
  lemma {:induction false} HeaderIff(c: Client)
    requires AsRead(c)
    ensures IsHeader(Print(c)) <==> OpensSection(c)
  {
    hide Trim, ValueOf, FingerprintAsRead, JsSpace;
    ValueEnds(c);
    var a, v := c.vpnAddress, ValueOf(c);
    TrimPrinted(a, v);
    BracketIff(a, v);
  }

  lemma {:induction false} BracketIff(a: string, v: string)
    ensures IsBracketed(FrontText(a) + ['='] + BackText(v))
       <==> && a != "" && a[0] == '[' && ']' !in a
            && v != "" && v[|v| - 1] == ']' && ']' !in v[..|v| - 1]
  {
    var t := FrontText(a) + ['='] + BackText(v);
    if a == "" {
      assert t[0] == '=';
    } else if v == "" {
      assert t[|t| - 1] == '=';
    } else {
      InsideIff(a, v);
      if a[0] == '[' { AfterBracket(a); }
    }
  }

  lemma {:induction false} InsideIff(a: string, v: string)
    requires a != "" && v != ""
    ensures var t := FrontText(a) + ['='] + BackText(v);
            && |t| > 3 && t[0] == a[0] && t[|t| - 1] == v[|v| - 1]
            && (']' !in t[1..|t| - 1] <==> ']' !in a[1..] && ']' !in v[..|v| - 1])
  {
    var middle := " = ";
    assert |middle| == 3 && ']' !in middle;
    assert FrontText(a) + ['='] + BackText(v) == a + middle + v;
    hide FrontText, BackText;
    Inside(a, middle, v);
    InSum(a[1..], middle + v[..|v| - 1], ']');
    InSum(middle, v[..|v| - 1], ']');
  }

  lemma {:induction false} AfterBracket(a: string)
    requires a != "" && a[0] == '['
    ensures ']' !in a <==> ']' !in a[1..]
  {
    assert a == [a[0]] + a[1..];
  }

  lemma {:induction false} Inside(a: string, m: string, v: string)
    requires a != "" && v != ""
    ensures var t := a + m + v;
            && |t| == |a| + |m| + |v| && t[0] == a[0] && t[|t| - 1] == v[|v| - 1]
            && t[1..|t| - 1] == a[1..] + (m + v[..|v| - 1])
  {
  }

  lemma {:induction false} InSum(a: string, b: string, c: char)
    ensures c in a + b <==> c in a || c in b
  {
  }

  // ----- The written section -----

  /** The clients before the first line that opens a section. */
  function Reached(clients: seq<Client>): (k: nat)
    ensures k <= |clients|
  {
    if clients == [] then 0
    else
      var n := |clients| - 1;
      var k := Reached(clients[..n]);
      if k < n then k else if OpensSection(clients[n]) then n else n + 1
  }

  lemma {:induction false} ReachedIs(clients: seq<Client>)
    ensures forall i :: 0 <= i < Reached(clients) ==> !OpensSection(clients[i])
    ensures Reached(clients) < |clients| ==> OpensSection(clients[Reached(clients)])
  {
    hide OpensSection;
    if clients != [] { ReachedIs(clients[..|clients| - 1]); }
  }

  function AllAgain(clients: seq<Client>): (r: seq<Client>)
    ensures |r| == |clients| && forall i :: 0 <= i < |r| ==> r[i] == Again(clients[i])
  {
    seq(|clients|, i requires 0 <= i < |clients| => Again(clients[i]))
  }

  ghost predicate AllAsRead(clients: seq<Client>) {
    forall i :: 0 <= i < |clients| ==> AsRead(clients[i])
  }

  lemma {:induction false} NoBodyAgain()
    ensures ClientsOf(ParseBody(Body([]))) == []
  {
    hide ParseLine, Managed;
    ManagedReads();
    assert Body([]) == [Managed()] && [Managed()][..0] == [] && ParseBody([]) == [];
  }

  lemma {:induction false} BodyAgain(clients: seq<Client>)
    requires AllAsRead(clients)
    ensures ClientsOf(ParseBody(Body(clients))) == AllAgain(clients)
  {
    hide Print, AsRead, ParseLine, ClientOf, Managed, Again, ValueAgain, Body, ClientsOf;
    if clients == [] {
      NoBodyAgain();
    } else {
      var n := |clients| - 1;
      BodyAgain(clients[..n]);
      PrintedReadsAgain(clients[n]);
      BodyLast(clients);
      assert Body(clients)[..|Body(clients)| - 1] == Body(clients[..n]);
      ClientsPush(ParseBody(Body(clients[..n])), Pair(clients[n].vpnAddress, ValueAgain(clients[n])));
    }
  }

  lemma {:induction false} BodyHeaders(clients: seq<Client>, i: nat)
    requires AllAsRead(clients) && i <= |clients|
    ensures |Body(clients)| == |clients| + 1
    ensures IsHeader(Body(clients)[i]) <==> i > 0 && OpensSection(clients[i - 1])
  {
    hide Print, AsRead, Managed, IsHeader, OpensSection;
    BodyLines(clients, i);
    ManagedReads();
    if i > 0 { HeaderIff(clients[i - 1]); }
  }

  /** The file that was written is read line by line, up to the first line that opens a section. */
  lemma {:induction false} WrittenReadsAgain(lines: Lines, clients: seq<Client>)
    requires AllAsRead(clients)
    ensures ReadClients(Written(lines, clients)) == AllAgain(clients[..Reached(clients)])
  {
    hide IsHeader, AsRead, ParseBody, ClientsOf, Front, Rest, Body, TrimBlank, ClientPairs, Start, Written,
      OpensSection, AllAgain, Again;
    WrittenParts(lines, clients);
    KeptHeader(lines);
    forall more: Lines ensures Start(Front(lines) + more) == Some(|Front(lines)| - 1) { FrontStart(lines, more); }
    FrontStart(lines, []);
    var k := Reached(clients);
    ReachedIs(clients);
    BodyAgain(clients[..k]);
    forall i | 0 <= i <= |clients|
      ensures |Body(clients)| == |clients| + 1
      ensures IsHeader(Body(clients)[i]) <==> i > 0 && OpensSection(clients[i - 1])
    {
      BodyHeaders(clients, i);
    }
    BodyPrefix(clients, k);
    var tail := TrimBlank(Rest(lines)) + [""];
    if k == |clients| {
      assert clients[..k] == clients;
      SectionReads(Front(lines), Body(clients), TrimBlank(Rest(lines)));
    } else {
      var after := Body(clients)[k + 1..] + tail;
      assert Body(clients) == Body(clients[..k]) + Body(clients)[k + 1..];
      assert Front(lines) + Body(clients) + tail == Front(lines) + Body(clients[..k]) + after;
      var part := Body(clients[..k]);
      forall i | 0 <= i < |part| ensures !IsHeader(part[i]) {
        assert part[i] == Body(clients)[i];
      }
      assert after[0] == Body(clients)[k + 1];
      SectionBefore(Front(lines), Body(clients[..k]), after);
    }
  }

  // ----- Which client is lost -----

  /** Reading a printed client again never lowers this, and leaves it alone only when the client
      is the same. */
  function Rank(c: Client): nat {
    if c.loginId == "" then 5
    else if c.fingerprint != "" then (if c.password.Some? then 4 else 3)
    else if c.password.Some? then 0
    else if c.loginId == "undefined" then 2 else 1
  }

  lemma {:induction false} RankGrows(c: Client)
    requires AsRead(c)
    ensures Again(c) == c || Rank(Again(c)) > Rank(c)
  {
    hide JsSpace, LowerCase, Bindings.WithoutColons;
    PasswordTextIs(c);
    UndefinedStays();
  }

  function RankSum(clients: seq<Client>): nat {
    if clients == [] then 0 else RankSum(clients[..|clients| - 1]) + Rank(clients[|clients| - 1])
  }

  lemma {:induction false} RankSumGrows(clients: seq<Client>)
    requires AllAsRead(clients)
    ensures RankSum(AllAgain(clients)) >= RankSum(clients)
    ensures AllAgain(clients) == clients || RankSum(AllAgain(clients)) > RankSum(clients)
  {
    hide AsRead, Again, Rank;
    if clients != [] {
      var n := |clients| - 1;
      RankSumGrows(clients[..n]);
      RankGrows(clients[n]);
      assert AllAgain(clients)[..n] == AllAgain(clients[..n]);
      assert clients == clients[..n] + [clients[n]];
      assert AllAgain(clients) == AllAgain(clients[..n]) + [Again(clients[n])];
    }
  }

  lemma {:induction false} RankSumWithout(clients: seq<Client>, i: nat)
    requires i < |clients|
    ensures RankSum(clients) == RankSum(clients[..i] + clients[i + 1..]) + Rank(clients[i])
  {
    hide Rank;
    var n := |clients| - 1;
    if i < n {
      RankSumWithout(clients[..n], i);
      var without := clients[..i] + clients[i + 1..];
      assert without[..n - 1] == clients[..n][..i] + clients[..n][i + 1..];
      assert without[n - 1] == clients[n];
    } else {
      assert clients[..i] + clients[i + 1..] == clients[..n];
    }
  }

  lemma {:induction false} WithoutOne(clients: seq<Client>, i: nat)
    requires i < |clients|
    ensures multiset(clients[..i] + clients[i + 1..]) == multiset(clients) - multiset{clients[i]}
  {
    assert clients == clients[..i] + [clients[i]] + clients[i + 1..];
  }

  lemma {:induction false} RankSumOfOrder(a: seq<Client>, b: seq<Client>)
    requires multiset(a) == multiset(b)
    ensures RankSum(a) == RankSum(b)
  {
    hide Rank;
    if a == [] {
      assert |multiset(b)| == |b|;
    } else {
      var n := |a| - 1;
      assert a == a[..n] + [a[n]];
      assert a[n] in multiset(b);
      var i :| 0 <= i < |b| && b[i] == a[n];
      var without := b[..i] + b[i + 1..];
      WithoutOne(b, i);
      assert multiset(a[..n]) == multiset(a) - multiset{a[n]};
      RankSumOfOrder(a[..n], without);
      RankSumWithout(b, i);
    }
  }

  /** Clients are read back, in any order, exactly when each of them survives; then they are read
      back in the order in which they were written. */
  lemma {:induction false} WrittenReadsIff(lines: Lines, clients: seq<Client>)
    requires AllAsRead(clients)
    ensures multiset(ReadClients(Written(lines, clients))) == multiset(clients)
       <==> forall i :: 0 <= i < |clients| ==> Survives(clients[i])
    ensures ReadClients(Written(lines, clients)) == clients
       <==> forall i :: 0 <= i < |clients| ==> Survives(clients[i])
  {
    hide AsRead, Again, Written, ReadClients, OpensSection;
    WrittenReadsAgain(lines, clients);
    var k := Reached(clients);
    ReachedIs(clients);
    forall i | 0 <= i < |clients|
      ensures Survives(clients[i]) <==> Again(clients[i]) == clients[i] && !OpensSection(clients[i])
    {
      AgainIff(clients[i]);
    }
    var again := AllAgain(clients[..k]);
    if multiset(again) == multiset(clients) {
      assert |multiset(again)| == |again| && |multiset(clients)| == |clients|;
      assert clients[..k] == clients;
      RankSumGrows(clients);
      RankSumOfOrder(again, clients);
    }
    if forall i :: 0 <= i < |clients| ==> Survives(clients[i]) {
      assert k == |clients| && clients[..k] == clients;
      assert again == clients;
    }
  }

  lemma {:induction false} AgainWithout(clients: seq<Client>, i: nat)
    requires i < |clients|
    ensures multiset(AllAgain(clients))
         == multiset(AllAgain(clients[..i] + clients[i + 1..])) + multiset{Again(clients[i])}
  {
    hide Again;
    var all := AllAgain(clients);
    assert all == all[..i] + [all[i]] + all[i + 1..];
    assert AllAgain(clients[..i] + clients[i + 1..]) == all[..i] + all[i + 1..];
  }

  /** What is read again does not depend on the order in which the clients are written. */
  lemma {:induction false} AllAgainOfOrder(a: seq<Client>, b: seq<Client>)
    requires multiset(a) == multiset(b)
    ensures multiset(AllAgain(a)) == multiset(AllAgain(b))
  {
    if a == [] {
      assert |multiset(b)| == |b|;
    } else {
      hide AllAgain, Again;
      var n := |a| - 1;
      assert a == a[..n] + [a[n]];
      assert a[n] in multiset(b);
      var i :| 0 <= i < |b| && b[i] == a[n];
      WithoutOne(b, i);
      assert multiset(a[..n]) == multiset(a) - multiset{a[n]};
      AllAgainOfOrder(a[..n], b[..i] + b[i + 1..]);
      AgainWithout(b, i);
      AgainWithout(a, n);
      assert a[..n] + a[n + 1..] == a[..n];
    }
  }

  // ----- Lines that do not survive -----

  lemma {:induction false} JoinedLine(a: string, v: string)
    requires a != "" && v != "" && Trimmed(a) && Trimmed(v) && '=' !in a && a[0] != '#' && a[0] != ';'
    ensures ParseLine(a + " = " + v) == [Pair(a, v)] && Trim(JsSpace, a + " = " + v) == a + " = " + v
  {
    hide Trim, Cut, JsSpace;
    SpaceIs();
    JoinedParts(JsSpace, a, v);
    TrimAfter(JsSpace, a);
    TrimBefore(JsSpace, v);
    assert (a + " = " + v)[0] == a[0];
  }

  lemma {:induction false} ThreeTokens(f: string, id: string, p: string, more: string)
    requires f != "" && id != "" && p != "" && more != ""
    requires NoneOf(JsSpace, f) && NoneOf(JsSpace, id) && NoneOf(JsSpace, p) && NoneOf(JsSpace, more)
    ensures Tokens(JsSpace, f + " " + (id + " " + p)) == [f, id, p]
    ensures Tokens(JsSpace, f + " " + (id + " " + (p + " " + more))) == [f, id, p, more]
  {
    hide Tokens, NoneOf, JsSpace;
    SpaceIs();
    OneToken(JsSpace, more);
    OneToken(JsSpace, p);
    NextToken(JsSpace, p, more);
    NextToken(JsSpace, id, p);
    NextToken(JsSpace, id, p + " " + more);
    NextToken(JsSpace, f, id + " " + p);
    NextToken(JsSpace, f, id + " " + (p + " " + more));
  }

  /** A fingerprint of colons only is lost: then the login is read as the fingerprint and the
      password as the login. */
  lemma {:induction false} LoginMoves()
    ensures ParseLine("1" + " = " + (":" + " " + ("al" + " " + "se"))) == [Pair("1", ":" + " " + ("al" + " " + "se"))]
    ensures var c := ClientOf(Pair("1", ":" + " " + ("al" + " " + "se")));
            c == Client("1", "", "al", Some("se")) && Again(c) == Client("1", "al", "se", None)
  {
    hide ParseLine, Tokens;
    JoinedLine("1", ":" + " " + ("al" + " " + "se"));
    ThreeTokens(":", "al", "se", "se");
    NoColons("al");
    assert LowerCase("al") == "al";
    assert ":"[1..] == "" && Bindings.WithoutColons(":") == "" && LowerCase("") == "";
  }

  /** A client line that becomes the first line of another section, because the console does not
      keep the text after the password. */
  lemma {:induction false} LineOpensSection()
    ensures var v := "f" + " " + ("x" + " " + ("y]" + " " + "z"));
            && ParseLine("[a" + " = " + v) == [Pair("[a", v)] && !IsHeader("[a" + " = " + v)
            && OpensSection(ClientOf(Pair("[a", v)))
  {
    hide ParseLine, Tokens;
    var v := "f" + " " + ("x" + " " + ("y]" + " " + "z"));
    assert v[|v| - 1] == 'z';
    JoinedLine("[a", v);
    ThreeTokens("f", "x", "y]", "z");
    NoColons("f");
    assert LowerCase("f") == "f";
    var c := Client("[a", "f", "x", Some("y]"));
    assert ValueOf(c) == "f x y]" && ']' !in "f x y";
  }
}
