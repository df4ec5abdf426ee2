/** What the lexer does with each kind of text: white space, single quotes, double
    quotes, backslashes, and inputs that end too early. */
module ShlexLaws {
  import opened Shlex
  import opened ShellQuote

  /** unicode.IsSpace by code point. */
  lemma SpaceIs(c: char)
    ensures IsSpace(c) <==>
              var n := c as int;
              n in {9, 10, 11, 12, 13, 32, 0x85, 0xA0, 0x1680, 0x2028, 0x2029, 0x202F, 0x205F, 0x3000}
              || 0x2000 <= n <= 0x200A
  {}

  /** Between tokens or inside a word. */
  predicate Open(m: Mode) { m.Space? || m.Word? }

  /** Inside single quotes every other character stands for itself. */
  lemma {:induction false} InSingleQuotes(tokens: seq<string>, token: string, quoted: bool, w: string, rest: string)
    requires '\'' !in w
    ensures Lex(tokens, Scan(Quote('\''), token, quoted), w + "'" + rest) == Lex(tokens, Scan(Word, token + w, true), rest)
    decreases |w|
  {
    hide Lex;
    if w == [] {
      assert w + "'" + rest == ['\''] + rest && token + w == token;
      LexCons(tokens, Scan(Quote('\''), token, quoted), '\'', rest);
    } else {
      assert w + "'" + rest == [w[0]] + (w[1..] + "'" + rest);
      LexCons(tokens, Scan(Quote('\''), token, quoted), w[0], w[1..] + "'" + rest);
      InSingleQuotes(tokens, token + [w[0]], true, w[1..], rest);
      assert token + [w[0]] + w[1..] == token + w;
    }
  }

  /** A single-quoted text adds itself to the token, backslashes and all. */
  lemma SingleQuoted(tokens: seq<string>, scan: Scan, w: string, rest: string)
    requires Open(scan.mode) && '\'' !in w
    ensures Lex(tokens, scan, "'" + w + "'" + rest) == Lex(tokens, Scan(Word, scan.token + w, true), rest)
  {
    hide Lex;
    assert "'" + w + "'" + rest == ['\''] + (w + "'" + rest);
    LexCons(tokens, scan, '\'', w + "'" + rest);
    InSingleQuotes(tokens, scan.token, scan.quoted, w, rest);
  }

  /** So does a double-quoted text without quotes and backslashes. */
  lemma DoubleQuoted(tokens: seq<string>, scan: Scan, w: string, rest: string)
    requires Open(scan.mode) && NoEscapes(w) && w != ""
    ensures Lex(tokens, scan, "\"" + w + "\"" + rest) == Lex(tokens, Scan(Word, scan.token + w, true), rest)
  {
    hide Lex;
    assert "\"" + w + "\"" + rest == ['\"'] + ([w[0]] + (w[1..] + (['\"'] + rest)));
    LexCons(tokens, scan, '\"', [w[0]] + (w[1..] + (['\"'] + rest)));
    FeedPlainInQuotes(tokens, scan.token, scan.quoted, w[0], w[1..] + (['\"'] + rest));
    LexPlainInQuotes(tokens, scan.token + [w[0]], w[1..], ['\"'] + rest);
    assert scan.token + [w[0]] + w[1..] == scan.token + w;
    LexCons(tokens, InQuotes(scan.token + w), '\"', rest);
  }

  /** Outside quotes a backslash makes the next character stand for itself. */
  lemma Backslashed(tokens: seq<string>, scan: Scan, c: char, rest: string)
    requires Open(scan.mode)
    ensures Lex(tokens, scan, ['\\', c] + rest) == Lex(tokens, Scan(Word, scan.token + [c], scan.quoted), rest)
  {
    hide Lex;
    assert ['\\', c] + rest == ['\\'] + ([c] + rest);
    LexCons(tokens, scan, '\\', [c] + rest);
    LexCons(tokens, Feed(scan, '\\').scan, c, rest);
  }

  /** Inside double quotes it does so before a quote or a backslash, and stays
      otherwise. */
  lemma BackslashedInQuotes(tokens: seq<string>, token: string, c: char, rest: string)
    ensures Lex(tokens, InQuotes(token), ['\\', c] + rest) ==
            Lex(tokens, InQuotes(token + (if c == '\\' || c == '\"' then [c] else ['\\', c])), rest)
  {
    FeedEscapeInQuotes(tokens, token, true, c, rest);
  }

  lemma LexEnd(tokens: seq<string>, scan: Scan)
    ensures Lex(tokens, scan, []) == Result(Push(tokens, scan.token), AtEnd(scan.mode))
  {}

  /** A command line with a single-quoted script. */
  lemma SplitScript(shell: string, w: string)
    requires Plain(shell) && shell != "" && '\'' !in w && w != ""
    ensures Split(shell + " -c '" + w + "'") == Result([shell, "-c", w], NoError)
  {
    hide Lex, Feed;
    assert shell + " -c '" + w + "'" == shell + " " + ("-c" + " " + ("'" + w + "'" + []));
    LexWord([], shell, "-c" + " " + ("'" + w + "'" + []));
    LexWord([shell], "-c", "'" + w + "'" + []);
    assert [] + [shell] == [shell] && [shell] + ["-c"] == [shell, "-c"];
    SingleQuoted([shell, "-c"], START, w, []);
    assert "" + w == w;
    LexEnd([shell, "-c"], Scan(Word, w, true));
  }

  /** Quotes around nothing give no token. */
  lemma SplitNothing()
    ensures Split("''") == Result([], NoError) && Split("") == Result([], NoError) && Split(" ") == Result([], NoError)
  {
    hide Lex;
    assert "''" == "'" + "" + "'" + [];
    SingleQuoted([], START, "", []);
    assert START.token + "" == "";
    LexEnd([], Scan(Word, "", true));
    LexEnd([], START);
    assert " " == [' '] + [];
    LexCons([], START, ' ', []);
  }

  lemma {:induction false} StuckInSingleQuotes(tokens: seq<string>, scan: Scan, w: string)
    requires scan.mode == Quote('\'') && '\'' !in w
    ensures Lex(tokens, scan, w).error == NoClosing
    decreases |w|
  {
    if w != [] {
      StuckInSingleQuotes(tokens, Feed(scan, w[0]).scan, w[1..]);
    }
  }

  /** A quotation that is never closed, and a backslash with nothing after it. */
  lemma EndsTooEarly(w: string)
    ensures '\'' !in w ==> Split("'" + w).error == NoClosing
    ensures NoEscapes(w) ==> Split("\"" + w).error == NoClosing && Split("\"" + w + "\\").error == NoEscaped
    ensures Plain(w) ==> Split(w + "\\").error == NoEscaped
  {
    hide Lex;
    if '\'' !in w {
      assert "'" + w == ['\''] + w;
      LexCons([], START, '\'', w);
      StuckInSingleQuotes([], Scan(Quote('\''), "", false), w);
    }
    if NoEscapes(w) {
      UnclosedDouble(w);
    }
    if Plain(w) {
      TrailingBackslash(w);
    }
  }

  lemma UnclosedDouble(w: string)
    requires NoEscapes(w)
    ensures Split("\"" + w).error == NoClosing && Split("\"" + w + "\\").error == NoEscaped
  {
    hide Lex;
    var open := Scan(Quote('\"'), "", false);
    assert "\"" + w == ['\"'] + w && "\"" + w + "\\" == ['\"'] + (w + ['\\']);
    LexCons([], START, '\"', w);
    LexCons([], START, '\"', w + ['\\']);
    if w == [] {
      LexEnd([], open);
      assert w + ['\\'] == ['\\'] + [];
      LexCons([], open, '\\', []);
      LexEnd([], Feed(open, '\\').scan);
    } else {
      var t := w[1..];
      assert w == [w[0]] + (t + []) && w + ['\\'] == [w[0]] + (t + (['\\'] + []));
      FeedPlainInQuotes([], "", false, w[0], t + []);
      FeedPlainInQuotes([], "", false, w[0], t + (['\\'] + []));
      LexPlainInQuotes([], "" + [w[0]], t, []);
      LexPlainInQuotes([], "" + [w[0]], t, ['\\'] + []);
      var inside := InQuotes("" + [w[0]] + t);
      LexEnd([], inside);
      LexCons([], inside, '\\', []);
      LexEnd([], Feed(inside, '\\').scan);
    }
  }

  lemma TrailingBackslash(w: string)
    requires Plain(w)
    ensures Split(w + "\\").error == NoEscaped
  {
    hide Lex;
    if w == [] {
      assert w + "\\" == ['\\'] + [];
      LexCons([], START, '\\', []);
      LexEnd([], Feed(START, '\\').scan);
    } else {
      var t := w[1..];
      assert w + "\\" == [w[0]] + (t + (['\\'] + []));
      LexCons([], START, w[0], t + (['\\'] + []));
      assert "" + [w[0]] == [w[0]];
      LexPlain([], [w[0]], false, t, ['\\'] + []);
      var word := Scan(Word, [w[0]] + t, false);
      LexCons([], word, '\\', []);
      LexEnd([], Feed(word, '\\').scan);
    }
  }

  /** How %q writes what is not printable. */
  lemma EscapeVectors(isPrint: Printable)
    requires IsGoPrint(isPrint)
    ensures EscapeChar(isPrint, '\n') == "\\n" && EscapeChar(isPrint, '\t') == "\\t" && EscapeChar(isPrint, '\r') == "\\r"
    ensures EscapeChar(isPrint, '\U{0007}') == "\\a" && EscapeChar(isPrint, '\U{0008}') == "\\b"
    ensures EscapeChar(isPrint, '\U{000B}') == "\\v" && EscapeChar(isPrint, '\U{000C}') == "\\f"
  {}

  lemma HexStep(m: nat, l: nat, k: nat)
    requires l < 16
    ensures Hex(16 * m + l, k + 1) == Hex(m, k) + [HexDigit(l)] && Hex(m, 0) == []
  {}

  /** Digits come most significant first, with leading zeros. */
  lemma HexFour(i: nat, j: nat, k: nat, l: nat)
    requires i < 16 && j < 16 && k < 16 && l < 16
    ensures Hex(16 * (16 * (16 * i + j) + k) + l, 4) == [HexDigit(i), HexDigit(j), HexDigit(k), HexDigit(l)]
    ensures Hex(16 * i + j, 2) == [HexDigit(i), HexDigit(j)]
  {
    hide Hex, HexDigit;
    HexStep(0, i, 0);
    HexStep(i, j, 1);
    HexStep(16 * i + j, k, 2);
    HexStep(16 * (16 * i + j) + k, l, 3);
  }

  lemma HexVectors()
    ensures Hex(0x1b, 2) == "1b" && Hex(0x00a0, 4) == "00a0"
  {
    hide Hex;
    HexFour(1, 11, 0, 0);
    HexFour(0, 0, 10, 0);
  }

  /** Characters without a letter of their own: two digits below 128, then four, then
      eight. */
  lemma HexEscapes(isPrint: Printable, c: char)
    requires IsGoPrint(isPrint) && !isPrint(c) && !(7 <= c as int <= 13)
    ensures EscapeChar(isPrint, c) ==
            if c as int < 0x80 then ['\\', 'x'] + Hex(c as int, 2)
            else if c as int < 0x10000 then ['\\', 'u'] + Hex(c as int, 4)
            else ['\\', 'U'] + Hex(c as int, 8)
  {}
}
