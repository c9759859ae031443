/** The `[client]` section of server.ini: written by the web console, read back by the console
    and by the server.

    A file is the sequence of its lines, none of which holds a line terminator. */
module ServerIni {
  import opened Net
  import opened Text
  import Bindings

  type Lines = seq<string>

  datatype Pair = Pair(key: string, value: string)

  // ----- The console's reader -----

  function LowerCase(s: string): (r: string)
    ensures |r| == |s|
  {
    seq(|s|, i requires 0 <= i < |s| => Bindings.Lower(s[i]))
  }

  predicate IsBracketed(t: string) {
    |t| >= 3 && t[0] == '[' && t[|t| - 1] == ']' && ']' !in t[1..|t| - 1]
  }

  /** A line that opens a section. */
  predicate IsHeader(line: string) { IsBracketed(Trim(JsSpace, line)) }

  predicate OpensClients(line: string) {
    LowerCase(Trim(JsSpace, line)) == "[client]"
  }

  /** The first line of the section, if there is one. */
  function Start(lines: Lines): (at: Option<nat>)
    ensures at.Some? ==> at.value < |lines| && OpensClients(lines[at.value])
  {
    if lines == [] then None
    else if OpensClients(lines[0]) then Some(0)
    else
      match Start(lines[1..])
      case None => None
      case Some(at) => Some(at + 1)
  }

  /** The next section's first line at or after `from`, or the end. */
  function NextHeader(lines: Lines, from: nat): (at: nat)
    requires from <= |lines|
    ensures from <= at <= |lines|
    decreases |lines| - from
  {
    if from == |lines| || IsHeader(lines[from]) then from else NextHeader(lines, from + 1)
  }

  function ParseLine(line: string): seq<Pair> {
    var content := Trim(JsSpace, line);
    if content == "" || content[0] == '#' || content[0] == ';' then []
    else
      match Cut(content, '=')
      case None => []
      case Some((key, value)) => [Pair(Trim(JsSpace, key), Trim(JsSpace, value))]
  }

  function ParseBody(body: Lines): seq<Pair> {
    if body == [] then [] else ParseBody(body[..|body| - 1]) + ParseLine(body[|body| - 1])
  }

  /** parseSection for the client section. */
  function ClientPairs(lines: Lines): seq<Pair> {
    match Start(lines)
    case None => []
    case Some(start) => ParseBody(lines[start + 1..NextHeader(lines, start + 1)])
  }

  /** `loginId` is empty when there is none; `password` is missing when the line had only two
      fields. */
  datatype Client = Client(vpnAddress: string, fingerprint: string, loginId: string, password: Option<string>)

  function ClientOf(pair: Pair): Client {
    var fields := if pair.value == "" then [""] else Tokens(JsSpace, pair.value);
    Client(pair.key,
           if fields == [] then "" else LowerCase(Bindings.WithoutColons(fields[0])),
           if |fields| > 1 then fields[1] else "",
           if |fields| > 2 then Some(fields[2]) else None)
  }

  function ClientsOf(pairs: seq<Pair>): seq<Client> {
    if pairs == [] then [] else ClientsOf(pairs[..|pairs| - 1]) + [ClientOf(pairs[|pairs| - 1])]
  }

  function ReadClients(lines: Lines): seq<Client> {
    ClientsOf(ClientPairs(lines))
  }

  // ----- The console's writer -----

  function Managed(): (comment: string)
    ensures |comment| > 1 && comment[0] == '#' && comment[|comment| - 1] == '.'
  {
    "# " + "Managed by Autobricks VPN Web. The VPN server reloads this section" + "."
  }

  /** A missing password prints as JavaScript prints a missing value. */
  function ValueOf(c: Client): string {
    if c.loginId == "" then c.fingerprint
    else c.fingerprint + " " + (c.loginId + " " + if c.password.Some? then c.password.value else "undefined")
  }

  function Print(c: Client): string {
    c.vpnAddress + " = " + ValueOf(c)
  }

  function PrintAll(clients: seq<Client>): Lines {
    if clients == [] then [] else PrintAll(clients[..|clients| - 1]) + [Print(clients[|clients| - 1])]
  }

  function Body(clients: seq<Client>): Lines {
    [Managed()] + PrintAll(clients)
  }

  function TrimBlank(lines: Lines): Lines {
    if lines != [] && lines[|lines| - 1] == "" then TrimBlank(lines[..|lines| - 1]) else lines
  }

  /** Up to and including the section's header, and what follows the section. */
  function Front(lines: Lines): Lines {
    match Start(lines)
    case None => lines + ["", "[client]"]
    case Some(start) => lines[..start + 1]
  }

  function Rest(lines: Lines): Lines {
    match Start(lines)
    case None => []
    case Some(start) => lines[NextHeader(lines, start + 1)..]
  }

  /** #writeClients: the section's body is replaced; the file ends with one line terminator. */
  function Written(lines: Lines, clients: seq<Client>): Lines {
    TrimBlank(Front(lines) + Body(clients) + Rest(lines)) + [""]
  }

  // ----- Printed lines -----

  predicate AddressText(s: string) {
    s != "" && forall i :: 0 <= i < |s| ==> IsDigit(s[i]) || s[i] == '.'
  }

  predicate FingerprintText(s: string) {
    |s| == 64 && forall i :: 0 <= i < |s| ==> Bindings.IsLowerHex(s[i])
  }

  /** A client as the console accepts and the server requires it: an address, a normalised
      fingerprint, and both login fields or neither, free of the given white space. */
  ghost predicate Plain(c: Client, space: char -> bool) {
    && AddressText(c.vpnAddress) && FingerprintText(c.fingerprint)
    && (c.loginId == "" <==> c.password.None?)
    && NoneOf(space, c.loginId)
    && (c.password.Some? ==> c.password.value != "" && NoneOf(space, c.password.value))
  }

  /** What both readers' white space has in common here. */
  ghost predicate Blank(space: char -> bool) {
    space(' ') && forall c :: space(c) ==> !IsDigit(c) && c != '.' && !Bindings.IsLowerHex(c) && c != '=' && c != '#'
  }

  lemma {:induction false} BlankBoth()
    ensures Blank(JsSpace) && Blank(RustSpace)
  {
  }

  lemma {:induction false} ValueTokens(c: Client, space: char -> bool)
    requires Plain(c, space) && Blank(space)
    ensures Tokens(space, ValueOf(c))
         == if c.loginId == "" then [c.fingerprint] else [c.fingerprint, c.loginId, c.password.value]
    ensures ValueOf(c) != "" && !space(ValueOf(c)[0]) && !space(ValueOf(c)[|ValueOf(c)| - 1])
  {
    hide Tokens;
    assert NoneOf(space, c.fingerprint);
    assert !space(c.fingerprint[0]) && !space(c.fingerprint[63]);
    if c.loginId == "" {
      OneToken(space, c.fingerprint);
    } else {
      NextToken(space, c.fingerprint, c.loginId + " " + c.password.value);
      NextToken(space, c.loginId, c.password.value);
      OneToken(space, c.password.value);
      var p := c.password.value;
      assert ValueOf(c)[|ValueOf(c)| - 1] == p[|p| - 1];
    }
  }

  lemma {:induction false} PrintedParts(c: Client, space: char -> bool)
    requires Plain(c, space) && Blank(space)
    ensures Trim(space, Print(c)) == Print(c)
    ensures Cut(Print(c), '=') == Some((c.vpnAddress + " ", " " + ValueOf(c)))
    ensures Trim(space, c.vpnAddress + " ") == c.vpnAddress
    ensures Trim(space, " " + ValueOf(c)) == ValueOf(c)
  {
    hide ValueOf, Trim, Cut;
    ValueTokens(c, space);
    var a, v := c.vpnAddress, ValueOf(c);
    assert !space(a[0]) && !space(a[|a| - 1]) && '=' !in a;
    JoinedParts(space, a, v);
    TrimAfter(space, a);
    TrimBefore(space, v);
  }

  lemma {:induction false} JoinedParts(space: char -> bool, a: string, v: string)
    requires a != "" && v != "" && !space(a[0]) && !space(v[|v| - 1]) && '=' !in a
    ensures Trim(space, a + " = " + v) == a + " = " + v
    ensures Cut(a + " = " + v, '=') == Some((a + " ", " " + v))
  {
    hide Trim, Cut;
    var line := a + " = " + v;
    assert line[0] == a[0] && line[|line| - 1] == v[|v| - 1];
    TrimNothing(space, line);
    assert line == (a + " ") + ['='] + (" " + v);
    CutOf(a + " ", '=', " " + v);
  }

  lemma {:induction false} TrimBefore(space: char -> bool, s: string)
    requires s != "" && !space(s[0]) && !space(s[|s| - 1]) && space(' ')
    ensures Trim(space, " " + s) == s
  {
    assert (" " + s)[1..] == s;
    assert TrimStart(space, s) == s;
  }

  lemma {:induction false} TrimAfter(space: char -> bool, s: string)
    requires s != "" && !space(s[0]) && !space(s[|s| - 1]) && space(' ')
    ensures Trim(space, s + " ") == s
  {
    var t := s + " ";
    assert t[0] == s[0] && t[|t| - 1] == ' ' && t[..|t| - 1] == s;
    assert TrimEnd(space, s) == s;
    assert TrimEnd(space, t) == s;
  }

  lemma {:induction false} HexStays(s: string)
    requires FingerprintText(s)
    ensures LowerCase(Bindings.WithoutColons(s)) == s
  {
    NoColons(s);
  }

  lemma {:induction false} NoColons(s: string)
    requires forall i :: 0 <= i < |s| ==> s[i] != ':'
    ensures Bindings.WithoutColons(s) == s
  {
    if s != "" {
      NoColons(s[1..]);
      assert s == [s[0]] + s[1..];
    }
  }

  /** A printed client is one pair, and the console reads the same client back from it. */
  lemma {:induction false} PrintedReads(c: Client)
    requires Plain(c, JsSpace)
    ensures ParseLine(Print(c)) == [Pair(c.vpnAddress, ValueOf(c))]
    ensures ClientOf(Pair(c.vpnAddress, ValueOf(c))) == c
    ensures !IsHeader(Print(c)) && Print(c) != ""
  {
    hide ValueOf, Trim, Cut, Tokens, JsSpace;
    BlankBoth();
    PrintedParts(c, JsSpace);
    ValueTokens(c, JsSpace);
    HexStays(c.fingerprint);
    assert Print(c)[0] == c.vpnAddress[0];
  }

  lemma {:induction false} ManagedReads()
    ensures ParseLine(Managed()) == [] && !IsHeader(Managed()) && Managed() != ""
  {
    hide Managed, TrimStart, TrimEnd;
    TrimNothing(JsSpace, Managed());
  }

  lemma {:induction false} BodyLines(clients: seq<Client>, i: nat)
    requires i <= |clients|
    ensures |Body(clients)| == |clients| + 1
    ensures Body(clients)[i] == if i == 0 then Managed() else Print(clients[i - 1])
  {
    hide Print, Managed;
    if clients != [] {
      var n := |clients| - 1;
      BodyLines(clients[..n], if i <= n then i else 0);
      assert Body(clients) == Body(clients[..n]) + [Print(clients[n])];
    }
  }

  lemma {:induction false} BodyPrefix(clients: seq<Client>, k: nat)
    requires k <= |clients|
    ensures |Body(clients)| == |clients| + 1 && Body(clients)[..k + 1] == Body(clients[..k])
  {
    hide Body;
    BodyLines(clients, 0);
    BodyLines(clients[..k], 0);
    forall i | 0 <= i <= k ensures Body(clients)[i] == Body(clients[..k])[i] {
      BodyLines(clients, i);
      BodyLines(clients[..k], i);
    }
  }

  lemma {:induction false} PrintNotBlank(c: Client)
    ensures Print(c) != ""
  {
  }

  lemma {:induction false} ClientsPush(pairs: seq<Pair>, pair: Pair)
    ensures ClientsOf(pairs + [pair]) == ClientsOf(pairs) + [ClientOf(pair)]
  {
    assert (pairs + [pair])[..|pairs|] == pairs;
  }

  // ----- Where the section is -----

  lemma {:induction false} StartStays(lines: Lines, more: Lines)
    requires Start(lines).Some?
    ensures Start(lines[..Start(lines).value + 1] + more) == Start(lines)
  {
    hide OpensClients;
    var at := Start(lines).value;
    var cut := lines[..at + 1] + more;
    assert cut[0] == lines[0];
    if at > 0 {
      StartStays(lines[1..], more);
      assert cut[1..] == lines[1..][..at] + more;
    }
  }

  lemma {:induction false} StartAppended(lines: Lines, header: string, more: Lines)
    requires Start(lines).None? && OpensClients(header)
    ensures Start(lines + [header] + more) == Some(|lines|)
  {
    hide OpensClients;
    var all := lines + [header] + more;
    if lines == [] {
      assert all[0] == header;
    } else {
      assert all[1..] == lines[1..] + [header] + more;
      StartAppended(lines[1..], header, more);
    }
  }

  lemma {:induction false} NextHeaderAfter(front: Lines, body: Lines, tail: Lines, k: nat)
    requires k <= |body| && forall i :: 0 <= i < |body| ==> !IsHeader(body[i])
    requires tail == [] || IsHeader(tail[0])
    ensures NextHeader(front + body + tail, |front| + k) == |front| + |body|
    decreases |body| - k
  {
    hide IsHeader;
    var all := front + body + tail;
    if k < |body| {
      assert all[|front| + k] == body[k];
      NextHeaderAfter(front, body, tail, k + 1);
    } else if tail != [] {
      assert all[|front| + k] == tail[0];
    }
  }

  /** The header that is added to a file without the section. */
  lemma {:induction false} NewHeader(lines: Lines)
    requires Start(lines).None?
    ensures Start(lines + [""]).None? && OpensClients("[client]")
  {
    TrimNothing(JsSpace, "[client]");
    assert LowerCase("[client]") == "[client]";
    assert Trim(JsSpace, "") == "";
    if lines == [] {
      assert ([""])[1..] == [];
      assert lines + [""] == [""];
      assert |LowerCase("")| == 0;
    } else {
      NewHeader(lines[1..]);
      assert (lines + [""])[1..] == lines[1..] + [""];
    }
  }

  lemma {:induction false} FrontStart(lines: Lines, more: Lines)
    ensures |Front(lines)| > 0
    ensures Start(Front(lines) + more) == Some(|Front(lines)| - 1)
  {
    hide OpensClients;
    match Start(lines) {
      case None =>
        NewHeader(lines);
        StartAppended(lines + [""], "[client]", more);
        assert Front(lines) == lines + [""] + ["[client]"];
      case Some(at) => StartStays(lines, more);
    }
  }

  lemma {:induction false} TrimBlankOf(front: Lines, last: string, tail: Lines)
    requires last != ""
    ensures TrimBlank(front + [last] + tail) == front + [last] + TrimBlank(tail)
    decreases |tail|
  {
    var all := front + [last] + tail;
    if tail != [] && tail[|tail| - 1] == "" {
      var n := |tail| - 1;
      TrimBlankOf(front, last, tail[..n]);
      assert all[..|all| - 1] == front + [last] + tail[..n];
    } else if tail == [] {
      assert all == front + [last] && all[|all| - 1] == last;
    }
  }

  lemma {:induction false} RestHeader(lines: Lines)
    ensures Rest(lines) == [] || IsHeader(Rest(lines)[0])
  {
    hide IsHeader, OpensClients;
    if Start(lines).Some? { NextHeaderIs(lines, Start(lines).value + 1); }
  }

  lemma {:induction false} NextHeaderIs(lines: Lines, from: nat)
    requires from <= |lines|
    ensures NextHeader(lines, from) == |lines| || IsHeader(lines[NextHeader(lines, from)])
    decreases |lines| - from
  {
    hide IsHeader;
    if from < |lines| && !IsHeader(lines[from]) { NextHeaderIs(lines, from + 1); }
  }

  lemma {:induction false} HeaderNotBlank()
    ensures !IsHeader("")
  {
  }

  lemma {:induction false} TrimBlankFirst(tail: Lines)
    requires tail == [] || tail[0] != ""
    ensures TrimBlank(tail) == [] <==> tail == []
    ensures tail != [] ==> TrimBlank(tail)[0] == tail[0]
  {
    if tail != [] && tail[|tail| - 1] == "" {
      TrimBlankFirst(tail[..|tail| - 1]);
    }
  }

  /** The written file, section by section: everything outside the client section is what it
      was, but for blank lines at the end. */
  lemma {:induction false} WrittenParts(lines: Lines, clients: seq<Client>)
    ensures Written(lines, clients) == Front(lines) + Body(clients) + (TrimBlank(Rest(lines)) + [""])
  {
    hide Print, Managed, Body, Front, Rest, TrimBlank;
    var body := Body(clients);
    BodyLines(clients, |clients|);
    if clients == [] { ManagedReads(); } else { PrintNotBlank(clients[|clients| - 1]); }
    TrimBlankParts(Front(lines), body, Rest(lines));
    var kept := TrimBlank(Rest(lines));
    assert Front(lines) + body + kept + [""] == Front(lines) + body + (kept + [""]);
  }

  lemma {:induction false} TrimBlankParts(front: Lines, body: Lines, rest: Lines)
    requires body != [] && body[|body| - 1] != ""
    ensures TrimBlank(front + body + rest) == front + body + TrimBlank(rest)
  {
    hide TrimBlank;
    var n := |body| - 1;
    assert body == body[..n] + [body[n]];
    assert front + body == (front + body[..n]) + [body[n]];
    TrimBlankOf(front + body[..n], body[n], rest);
  }

  /** A section between its header and the next one, and one at the end of the file. */
  lemma {:induction false} SectionBefore(front: Lines, body: Lines, after: Lines)
    requires forall more: Lines :: Start(front + more) == Some(|front| - 1)
    requires front != [] && forall i :: 0 <= i < |body| ==> !IsHeader(body[i])
    requires after == [] || IsHeader(after[0])
    ensures ClientPairs(front + body + after) == ParseBody(body)
  {
    hide IsHeader, OpensClients, ParseLine, Start, NextHeader, ParseBody;
    var file := front + body + after;
    assert file == front + (body + after);
    NextHeaderAfter(front, body, after, 0);
    assert file[|front|..|front| + |body|] == body;
  }

  lemma {:induction false} SectionReads(front: Lines, body: Lines, tail: Lines)
    requires forall more: Lines :: Start(front + more) == Some(|front| - 1)
    requires front != [] && forall i :: 0 <= i < |body| ==> !IsHeader(body[i])
    requires tail == [] || IsHeader(tail[0])
    ensures ClientPairs(front + body + (tail + [""])) == ParseBody(body)
  {
    hide IsHeader, ParseLine, Start, ParseBody, ClientPairs;
    if tail != [] {
      assert (tail + [""])[0] == tail[0];
      SectionBefore(front, body, tail + [""]);
    } else {
      var longer := body + [""];
      assert front + body + (tail + [""]) == front + longer + [];
      HeaderNotBlank();
      SectionBefore(front, longer, []);
      BlankEnd(body);
    }
  }

  lemma {:induction false} KeptHeader(lines: Lines)
    ensures TrimBlank(Rest(lines)) == [] || IsHeader(TrimBlank(Rest(lines))[0])
  {
    hide IsHeader, Rest;
    RestHeader(lines);
    HeaderNotBlank();
    TrimBlankFirst(Rest(lines));
  }

  lemma {:induction false} BlankEnd(body: Lines)
    ensures ParseBody(body + [""]) == ParseBody(body)
  {
    hide ParseLine;
    assert (body + [""])[..|body|] == body;
    BlankLine();
    assert ParseBody(body) + [] == ParseBody(body);
  }

  lemma {:induction false} BlankLine()
    ensures ParseLine("") == []
  {
    TrimNothing(JsSpace, "");
  }

  // ----- The server's reader -----

  function BeforeHash(line: string): string {
    match Cut(line, '#') case None => line case Some((front, _)) => front
  }

  function RustContent(line: string): string {
    Trim(RustSpace, BeforeHash(line))
  }

  predicate RustHeader(content: string) {
    |content| >= 2 && content[0] == '[' && content[|content| - 1] == ']'
  }

  function RustPair(content: string): seq<Pair> {
    match Cut(content, '=')
    case None => []
    case Some((key, value)) => [Pair(Trim(RustSpace, key), Trim(RustSpace, value))]
  }

  function RustLine(line: string, active: bool): seq<Pair> {
    var content := RustContent(line);
    if content == "" || RustHeader(content) || !active then [] else RustPair(content)
  }

  function ActiveAfter(line: string, active: bool): bool {
    var content := RustContent(line);
    if RustHeader(content) then content[1..|content| - 1] == "client" else active
  }

  /** parse_ini_entries for the client section. */
  function RustEntries(lines: Lines, active: bool): seq<Pair> {
    if lines == [] then []
    else RustLine(lines[0], active) + RustEntries(lines[1..], ActiveAfter(lines[0], active))
  }

  function ActiveAtEnd(lines: Lines, active: bool): bool {
    if lines == [] then active else ActiveAtEnd(lines[1..], ActiveAfter(lines[0], active))
  }

  method ParseIniEntries(lines: Lines) returns (values: seq<Pair>)
    ensures values == RustEntries(lines, false)
  {
    hide RustContent, RustHeader, RustPair, RustEntries;
    values := [];
    var active := false;
    var i := 0;
    assert lines[0..] == lines;
    while i < |lines|
      invariant i <= |lines|
      invariant values + RustEntries(lines[i..], active) == RustEntries(lines, false)
    {
      EntriesFrom(lines, i, active);
      ghost var before, was := values, active;
      var content := RustContent(lines[i]);
      if content != "" {
        if RustHeader(content) {
          HeaderLong(content);
          active := content[1..|content| - 1] == "client";
        } else if active {
          values := values + RustPair(content);
        }
      } else {
        EmptyNoHeader();
      }
      assert values == before + RustLine(lines[i], was);
      i := i + 1;
    }
    NoEntries(lines, active);
  }

  lemma {:induction false} EntriesFrom(lines: Lines, i: nat, active: bool)
    requires i < |lines|
    ensures RustEntries(lines[i..], active)
         == RustLine(lines[i], active) + RustEntries(lines[i + 1..], ActiveAfter(lines[i], active))
  {
    hide RustLine, ActiveAfter;
    assert lines[i..][1..] == lines[i + 1..];
  }

  lemma {:induction false} NoEntries(lines: Lines, active: bool)
    ensures RustEntries(lines[|lines|..], active) == []
  {
  }

  lemma {:induction false} EmptyNoHeader()
    ensures !RustHeader("")
  {
  }

  lemma {:induction false} HeaderLong(content: string)
    requires RustHeader(content)
    ensures |content| >= 2
  {
  }

  lemma {:induction false} RustAppend(a: Lines, b: Lines, active: bool)
    ensures RustEntries(a + b, active) == RustEntries(a, active) + RustEntries(b, ActiveAtEnd(a, active))
    ensures ActiveAtEnd(a + b, active) == ActiveAtEnd(b, ActiveAtEnd(a, active))
  {
    hide RustLine, ActiveAfter;
    if a == [] {
      assert a + b == b;
    } else {
      assert (a + b)[1..] == a[1..] + b;
      RustAppend(a[1..], b, ActiveAfter(a[0], active));
    }
  }

  /** No line of these opens the client section for the server. */
  ghost predicate NeverOpens(lines: Lines) {
    forall i :: 0 <= i < |lines| ==> RustContent(lines[i]) != "[client]"
  }

  lemma {:induction false} NotOpened(line: string)
    requires RustContent(line) != "[client]"
    ensures !ActiveAfter(line, false)
  {
    hide RustContent;
    var content := RustContent(line);
    if RustHeader(content) {
      HeaderNamed(content);
      assert "[" + "client" + "]" == "[client]";
    }
  }

  lemma {:induction false} HeaderNamed(content: string)
    requires RustHeader(content)
    ensures content == "[" + content[1..|content| - 1] + "]"
  {
  }

  lemma {:induction false} NeverOpened(lines: Lines)
    requires NeverOpens(lines)
    ensures RustEntries(lines, false) == [] && !ActiveAtEnd(lines, false)
  {
    hide RustContent, RustHeader;
    if lines != [] {
      NotOpened(lines[0]);
      NeverOpened(lines[1..]);
    }
  }

  /** Client fields that neither reader splits or cuts. */
  ghost predicate Portable(c: Client) {
    && Plain(c, JsSpace) && Plain(c, RustSpace)
    && '#' !in c.loginId && (c.password.Some? ==> '#' !in c.password.value)
  }

  lemma {:induction false} NoHash(c: Client)
    requires Plain(c, JsSpace) && '#' !in c.loginId && (c.password.Some? ==> '#' !in c.password.value)
    ensures BeforeHash(Print(c)) == Print(c)
  {
    CutSound(Print(c), '#');
  }

  lemma {:induction false} PrintedForServer(c: Client)
    requires Portable(c)
    ensures RustLine(Print(c), true) == [Pair(c.vpnAddress, ValueOf(c))] && ActiveAfter(Print(c), true)
    ensures Tokens(RustSpace, ValueOf(c))
         == if c.loginId == "" then [c.fingerprint] else [c.fingerprint, c.loginId, c.password.value]
  {
    hide ValueOf, Trim, Cut, Tokens, BeforeHash, RustSpace, JsSpace;
    BlankBoth();
    NoHash(c);
    PrintedParts(c, RustSpace);
    ValueTokens(c, RustSpace);
    assert Print(c)[0] == c.vpnAddress[0];
  }

  function PairsOf(clients: seq<Client>): seq<Pair> {
    if clients == [] then []
    else PairsOf(clients[..|clients| - 1]) + [Pair(clients[|clients| - 1].vpnAddress, ValueOf(clients[|clients| - 1]))]
  }

  lemma {:induction false} ManagedForServer(active: bool)
    ensures RustLine(Managed(), active) == [] && ActiveAfter(Managed(), active) == active
  {
    hide Managed;
    var m := Managed();
    assert m == "" + ['#'] + m[1..];
    CutOf("", '#', m[1..]);
    assert Trim(RustSpace, "") == "";
  }

  lemma {:induction false} OneMoreLine(body: Lines, line: string, pair: Pair)
    requires ActiveAtEnd(body, true) && RustLine(line, true) == [pair] && ActiveAfter(line, true)
    ensures RustEntries(body + [line], true) == RustEntries(body, true) + [pair] && ActiveAtEnd(body + [line], true)
  {
    hide RustLine, ActiveAfter;
    RustAppend(body, [line], true);
    assert [line][1..] == [];
  }

  lemma {:induction false} EmptyBodyForServer()
    ensures RustEntries(Body([]), true) == [] && ActiveAtEnd(Body([]), true)
  {
    hide RustLine, ActiveAfter, Managed;
    ManagedForServer(true);
    assert Body([]) == [Managed()] && [Managed()][1..] == [];
  }

  lemma {:induction false} BodyForServer(clients: seq<Client>)
    requires forall i :: 0 <= i < |clients| ==> Portable(clients[i])
    ensures RustEntries(Body(clients), true) == PairsOf(clients) && ActiveAtEnd(Body(clients), true)
  {
    hide Print, Portable, RustLine, ActiveAfter, Managed, ValueOf, RustEntries, ActiveAtEnd, Body;
    if clients == [] {
      EmptyBodyForServer();
    } else {
      var n := |clients| - 1;
      BodyForServer(clients[..n]);
      PrintedForServer(clients[n]);
      BodyLast(clients);
      OneMoreLine(Body(clients[..n]), Print(clients[n]), Pair(clients[n].vpnAddress, ValueOf(clients[n])));
    }
  }

  lemma {:induction false} BodyLast(clients: seq<Client>)
    requires clients != []
    ensures Body(clients) == Body(clients[..|clients| - 1]) + [Print(clients[|clients| - 1])]
  {
    hide Managed, Print;
  }

  /** For the server too the file has one client section, opened and closed where the console
      sees it. */
  ghost predicate OneSection(lines: Lines) {
    && NeverOpens(Front(lines)[..|Front(lines)| - 1])
    && RustContent(Front(lines)[|Front(lines)| - 1]) == "[client]"
    && (Rest(lines) == [] || RustHeader(RustContent(Rest(lines)[0])))
    && NeverOpens(Rest(lines))
  }

  lemma {:induction false} TrimBlankPrefix(lines: Lines)
    ensures TrimBlank(lines) <= lines
  {
    if lines != [] && lines[|lines| - 1] == "" { TrimBlankPrefix(lines[..|lines| - 1]); }
  }

  lemma {:induction false} OpensForServer(header: string)
    requires RustContent(header) == "[client]"
    ensures ActiveAfter(header, false) && RustLine(header, false) == []
  {
    hide RustContent;
    assert "[client]"[1..7] == "client";
  }

  lemma {:induction false} RestForServer(rest: Lines)
    requires NeverOpens(rest) && (rest == [] || (rest[0] != "" && RustHeader(RustContent(rest[0]))))
    ensures RustEntries(TrimBlank(rest) + [""], true) == []
  {
    hide RustContent, RustHeader;
    var kept := TrimBlank(rest);
    TrimBlankPrefix(rest);
    TrimBlankFirst(rest);
    BlankForServer();
    if kept == [] {
      assert kept + [""] == [""] && [""][1..] == [];
    } else {
      var all := kept + [""];
      assert all[0] == rest[0];
      HeaderCloses(rest[0]);
      forall i | 0 <= i < |all[1..]| ensures RustContent(all[1..][i]) != "[client]" {
        if i < |kept| - 1 { assert all[1..][i] == rest[i + 1]; }
      }
      NeverOpened(all[1..]);
    }
  }

  lemma {:induction false} BlankForServer()
    ensures RustContent("") == "" && RustLine("", true) == []
  {
  }

  lemma {:induction false} HeaderCloses(line: string)
    requires RustHeader(RustContent(line)) && RustContent(line) != "[client]"
    ensures RustLine(line, true) == [] && !ActiveAfter(line, true)
  {
    hide RustContent;
    NotOpened(line);
  }

  lemma {:induction false} FrontForServer(front: Lines)
    requires front != [] && NeverOpens(front[..|front| - 1]) && RustContent(front[|front| - 1]) == "[client]"
    ensures RustEntries(front, false) == [] && ActiveAtEnd(front, false)
  {
    hide RustContent, RustLine, ActiveAfter, NeverOpens;
    var n := |front| - 1;
    var last := [front[n]];
    assert front == front[..n] + last;
    RustAppend(front[..n], last, false);
    NeverOpened(front[..n]);
    OpensForServer(front[n]);
    assert last[1..] == [];
  }

  /** The server reads from the written file exactly the addresses, fingerprints and logins that
      the console wrote. */
  lemma {:induction false} ServerReadsWritten(lines: Lines, clients: seq<Client>)
    requires OneSection(lines) && forall i :: 0 <= i < |clients| ==> Portable(clients[i])
    ensures RustEntries(Written(lines, clients), false) == PairsOf(clients)
  {
    hide RustContent, RustHeader, NeverOpens, Front, Rest, Body, TrimBlank, RustEntries, ActiveAtEnd, Print,
      Plain, Written, IsHeader;
    WrittenParts(lines, clients);
    FrontStart(lines, []);
    FrontForServer(Front(lines));
    BodyForServer(clients);
    RestHeader(lines);
    HeaderNotBlank();
    RestForServer(Rest(lines));
    RustAppend(Front(lines), Body(clients), false);
    RustAppend(Front(lines) + Body(clients), TrimBlank(Rest(lines)) + [""], false);
  }

  /** The fields of each entry as the server takes them apart: the fingerprint, and the login if
      there is one. */
  lemma {:induction false} FieldsForServer(clients: seq<Client>, i: nat)
    requires i < |clients| && Portable(clients[i])
    ensures |PairsOf(clients)| == |clients| && PairsOf(clients)[i].key == clients[i].vpnAddress
    ensures Tokens(RustSpace, PairsOf(clients)[i].value)
         == if clients[i].loginId == "" then [clients[i].fingerprint]
            else [clients[i].fingerprint, clients[i].loginId, clients[i].password.value]
  {
    hide Tokens, ValueOf, Portable, Plain;
    PairsLength(clients, i);
    PrintedForServer(clients[i]);
  }

  lemma {:induction false} PairsLength(clients: seq<Client>, i: nat)
    requires i < |clients|
    ensures |PairsOf(clients)| == |clients| && PairsOf(clients)[i] == Pair(clients[i].vpnAddress, ValueOf(clients[i]))
  {
    var n := |clients| - 1;
    if n > 0 { PairsLength(clients[..n], if i < n then i else 0); }
  }

  // ----- What the console accepts as a login -----

  predicate LoginIdOk(id: string) {
    1 <= |id| <= 64 && forall i :: 0 <= i < |id| ==>
      || IsDigit(id[i]) || 'A' <= id[i] <= 'Z' || 'a' <= id[i] <= 'z'
      || id[i] == '_' || id[i] == '.' || id[i] == '@' || id[i] == '-'
  }

  predicate PasswordOk(password: string) {
    1 <= |password| <= 128 && forall i :: 0 <= i < |password| ==> !JsSpace(password[i]) && password[i] != '#'
  }

  /** The value the server extracts from a printed client. */
  function ServerValue(c: Client): string {
    match Cut(RustContent(Print(c)), '=')
    case None => ""
    case Some((_, value)) => Trim(RustSpace, value)
  }

  /** A login the console accepts reaches the server unchanged exactly when the password has no
      next-line character (U+0085): the server's white space includes it, the console's does
      not. */
  lemma {:induction false} LoginSurvivesIff(c: Client)
    requires AddressText(c.vpnAddress) && FingerprintText(c.fingerprint)
    requires LoginIdOk(c.loginId) && c.password.Some? && PasswordOk(c.password.value)
    ensures Tokens(RustSpace, ServerValue(c)) == [c.fingerprint, c.loginId, c.password.value]
       <==> '\U{85}' !in c.password.value
  {
    hide Trim, Cut, Tokens;
    var p := c.password.value;
    BlankBoth();
    LoginIdPlain(c.loginId);
    if '\U{85}' !in p {
      forall i | 0 <= i < |p| ensures !RustSpace(p[i]) {
        assert p[i] in p;
      }
      NoHash(c);
      PrintedParts(c, RustSpace);
      ValueTokens(c, RustSpace);
    } else {
      var tokens := Tokens(RustSpace, ServerValue(c));
      TokensClean(RustSpace, ServerValue(c));
      var i :| 0 <= i < |p| && p[i] == '\U{85}';
      assert RustSpace(p[i]);
      if |tokens| == 3 { assert NoneOf(RustSpace, tokens[2]); }
    }
  }

  lemma {:induction false} LoginIdPlain(id: string)
    requires LoginIdOk(id)
    ensures NoneOf(RustSpace, id) && NoneOf(JsSpace, id) && '#' !in id
  {
  }

  /** Such a password exists. */
  lemma {:induction false} NextLinePassword()
    ensures PasswordOk("a\U{85}b") && '\U{85}' in "a\U{85}b"
  {
    assert "a\U{85}b"[1] == '\U{85}';
  }
}
