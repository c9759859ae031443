/** How both programs read one line of server.ini, from the way the line is put together. */
module IniLines {
  import opened Net
  import opened Text
  import opened ServerIni

  ghost predicate AllOf(space: char -> bool, s: string) {
    forall i :: 0 <= i < |s| ==> space(s[i])
  }

  /** Nothing to trim at either end. */
  ghost predicate Trimmed(space: char -> bool, s: string) {
    s == "" || (!space(s[0]) && !space(s[|s| - 1]))
  }

  // ----- White space -----

  lemma {:induction false} TrimStartAround(space: char -> bool, before: string, s: string)
    requires AllOf(space, before) && (s == "" || !space(s[0]))
    ensures TrimStart(space, before + s) == s
  {
    if before == "" {
      assert before + s == s;
    } else {
      assert (before + s)[1..] == before[1..] + s;
      TrimStartAround(space, before[1..], s);
    }
  }

  lemma {:induction false} TrimEndAround(space: char -> bool, s: string, after: string)
    requires AllOf(space, after) && (s == "" || !space(s[|s| - 1]))
    ensures TrimEnd(space, s + after) == s
  {
    if after == "" {
      assert s + after == s;
    } else {
      var n := |after| - 1;
      assert (s + after)[..|s + after| - 1] == s + after[..n];
      TrimEndAround(space, s, after[..n]);
    }
  }

  /** Trimming takes away exactly the white space around a text. */
  lemma {:induction false} TrimAround(space: char -> bool, before: string, s: string, after: string)
    requires AllOf(space, before) && AllOf(space, after) && Trimmed(space, s)
    ensures Trim(space, before + s + after) == s
  {
    hide TrimStart, TrimEnd;
    if s == "" {
      assert before + s + after == (before + after) + "" && "" + "" == "";
      TrimStartAround(space, before + after, "");
      TrimEndAround(space, "", "");
    } else {
      assert before + s + after == before + (s + after);
      TrimStartAround(space, before, s + after);
      TrimEndAround(space, s, after);
    }
  }

  /** Splitting takes one word after the other, however much white space is between them. */
  lemma {:induction false} TokensAround(space: char -> bool, before: string, word: string, rest: string)
    requires AllOf(space, before) && NoneOf(space, word)
    requires if word == "" then rest == "" else rest == "" || space(rest[0])
    ensures Tokens(space, before + word + rest)
         == if word == "" then [] else [word] + Tokens(space, rest)
  {
    hide Word, TrimStart;
    assert before + word + rest == before + (word + rest);
    TrimStartAround(space, before, word + rest);
    if word != "" {
      WordOf(space, word, rest);
      assert (word + rest)[|word|..] == rest;
    }
  }

  // ----- The console -----

  /** A pair, whatever white space stands around its parts. */
  lemma {:induction false} ConsolePair(before: string, key: string, a: string, b: string, value: string, after: string)
    requires AllOf(JsSpace, before) && AllOf(JsSpace, a) && AllOf(JsSpace, b) && AllOf(JsSpace, after)
    requires key != "" && Trimmed(JsSpace, key) && Trimmed(JsSpace, value) && (value == "" ==> b == "")
    requires key[0] != '#' && key[0] != ';' && '=' !in key
    ensures ParseLine(before + (key + a + "=" + b + value) + after) == [Pair(key, value)]
  {
    var content := key + a + "=" + b + value;
    Around(JsSpace, before, key, a, b, value, after);
    assert content != "" && content[0] == key[0];
  }

  /** What both readers do with a line that has an equals sign. */
  lemma {:induction false} Around(space: char -> bool, before: string, key: string, a: string, b: string, value: string,
                                  after: string)
    requires AllOf(space, before) && AllOf(space, a) && AllOf(space, b) && AllOf(space, after)
    requires key != "" && Trimmed(space, key) && Trimmed(space, value) && (value == "" ==> b == "")
    requires '=' !in key && !space('=')
    ensures var content := key + a + "=" + b + value;
            && Trim(space, before + content + after) == content
            && Cut(content, '=') == Some((key + a, b + value))
            && Trim(space, key + a) == key && Trim(space, b + value) == value
  {
    hide Trim, Cut;
    var content := key + a + "=" + b + value;
    assert content[0] == key[0];
    assert content[|content| - 1] == if value == "" then '=' else value[|value| - 1];
    TrimAround(space, before, content, after);
    assert content == (key + a) + ['='] + (b + value);
    CutOf(key + a, '=', b + value);
    assert "" + key + a == key + a && b + value + "" == b + value;
    TrimAround(space, "", key, a);
    TrimAround(space, b, value, "");
  }

  /** A line without text, a comment, or one without an equals sign is no pair. */
  lemma {:induction false} ConsoleSkips(before: string, content: string, after: string)
    requires AllOf(JsSpace, before) && AllOf(JsSpace, after) && Trimmed(JsSpace, content)
    requires content == "" || content[0] == '#' || content[0] == ';' || '=' !in content
    ensures ParseLine(before + content + after) == []
  {
    hide Trim, Cut;
    TrimAround(JsSpace, before, content, after);
    CutSound(content, '=');
  }

  /** A section's name may have any case; a name in brackets ends the section before. */
  lemma {:induction false} ConsoleSection(before: string, name: string, after: string)
    requires AllOf(JsSpace, before) && AllOf(JsSpace, after)
    ensures var line := before + ("[" + name + "]") + after;
            && (OpensClients(line) <==> LowerCase(name) == "client")
            && (IsHeader(line) <==> name != "" && ']' !in name)
  {
    hide Trim;
    var t := "[" + name + "]";
    TrimAround(JsSpace, before, t, after);
    assert t[1..|t| - 1] == name;
    var lower := LowerCase(t);
    assert lower[0] == '[' && lower[|lower| - 1] == ']';
    assert lower == "[" + LowerCase(name) + "]";
    assert "[client]" == "[" + "client" + "]";
    if lower == "[client]" {
      assert lower[1..|lower| - 1] == LowerCase(name) && "[client]"[1..7] == "client";
    }
  }

  // ----- The server -----

  ghost predicate Comment(comment: string) { comment == "" || comment[0] == '#' }

  lemma {:induction false} WithoutComment(line: string, comment: string)
    requires '#' !in line && Comment(comment)
    ensures BeforeHash(line + comment) == line
  {
    hide Cut;
    if comment == "" {
      assert line + comment == line;
      CutSound(line, '#');
    } else {
      assert line + comment == line + ['#'] + comment[1..];
      CutOf(line, '#', comment[1..]);
    }
  }

  /** The pair of a line in the client section, up to the comment. */
  lemma {:induction false} ServerPair(before: string, key: string, a: string, b: string, value: string, after: string,
                                      comment: string, active: bool)
    requires AllOf(RustSpace, before) && AllOf(RustSpace, a) && AllOf(RustSpace, b) && AllOf(RustSpace, after)
    requires key != "" && Trimmed(RustSpace, key) && Trimmed(RustSpace, value) && (value == "" ==> b == "")
    requires '=' !in key && '#' !in key && '#' !in value && Comment(comment)
    requires key[0] != '[' || value == "" || value[|value| - 1] != ']'
    ensures var line := before + (key + a + "=" + b + value) + after + comment;
            && RustLine(line, active) == (if active then [Pair(key, value)] else [])
            && ActiveAfter(line, active) == active
  {
    hide Trim, Cut;
    var content := key + a + "=" + b + value;
    assert '#' !in before + content + after;
    WithoutComment(before + content + after, comment);
    Around(RustSpace, before, key, a, b, value, after);
    assert content[0] == key[0];
    assert content[|content| - 1] == if value == "" then '=' else value[|value| - 1];
  }

  /** A section begins and ends with its name in brackets, in exactly this case. */
  lemma {:induction false} ServerSection(before: string, name: string, after: string, comment: string, active: bool)
    requires AllOf(RustSpace, before) && AllOf(RustSpace, after) && '#' !in name && Comment(comment)
    ensures var line := before + ("[" + name + "]") + after + comment;
            && RustLine(line, active) == []
            && ActiveAfter(line, active) == (name == "client")
  {
    hide Trim;
    var t := "[" + name + "]";
    assert '#' !in before + t + after;
    WithoutComment(before + t + after, comment);
    TrimAround(RustSpace, before, t, after);
    assert t[1..|t| - 1] == name;
  }

  lemma {:induction false} ServerSkips(before: string, content: string, after: string, comment: string, active: bool)
    requires AllOf(RustSpace, before) && AllOf(RustSpace, after) && Trimmed(RustSpace, content) && Comment(comment)
    requires '#' !in content && '=' !in content && (content == "" || content[0] != '[')
    ensures var line := before + content + after + comment;
            RustLine(line, active) == [] && ActiveAfter(line, active) == active
  {
    hide Trim, Cut;
    assert '#' !in before + content + after;
    WithoutComment(before + content + after, comment);
    TrimAround(RustSpace, before, content, after);
    CutSound(content, '=');
  }
}
