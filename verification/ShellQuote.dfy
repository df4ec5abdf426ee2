/** The command line that server/shell.go builds with %q, split again by shlex. */
module ShellQuote {
  import opened Shlex

  /** strconv.IsPrint. Its Unicode tables stay open; of ASCII it holds the
      characters from blank to tilde. */
  type Printable = char -> bool

  ghost predicate IsGoPrint(isPrint: Printable) {
    forall c: char :: c as int < 0x80 ==> (isPrint(c) <==> ' ' <= c <= '~')
  }

  function HexDigit(n: nat): (d: char)
    requires n < 16
    ensures d != '\"' && d != '\\'
  {
    if n < 10 then (n + '0' as int) as char else (n - 10 + 'a' as int) as char
  }

  /** The low k hexadecimal digits of n. */
  function Hex(n: nat, k: nat): (s: string)
    ensures NoEscapes(s)
  {
    if k == 0 then [] else Hex(n / 16, k - 1) + [HexDigit(n % 16)]
  }

  predicate NoEscapes(s: string) { forall i :: 0 <= i < |s| ==> s[i] != '\"' && s[i] != '\\' }

  /** The letter after the backslash for a character that is not printable. */
  function Letter(c: char): (l: char)
    ensures l != '\"' && l != '\\'
  {
    if c as int == 7 then 'a'
    else if c as int == 8 then 'b'
    else if c as int == 12 then 'f'
    else if c == '\n' then 'n'
    else if c == '\r' then 'r'
    else if c == '\t' then 't'
    else if c as int == 11 then 'v'
    else if c < ' ' || c as int == 0x7f then 'x'
    else if c as int < 0x10000 then 'u'
    else 'U'
  }

  function HexDigits(c: char): (s: string)
    ensures NoEscapes(s)
  {
    match Letter(c)
    case 'x' => Hex(c as int, 2)
    case 'u' => Hex(c as int, 4)
    case 'U' => Hex(c as int, 8)
    case _ => ""
  }

  /** strconv.Quote of one character, inside double quotes. */
  function EscapeChar(isPrint: Printable, c: char): string {
    if c == '\"' || c == '\\' then ['\\', c]
    else if isPrint(c) then [c]
    else ['\\', Letter(c)] + HexDigits(c)
  }

  predicate AllPrintable(isPrint: Printable, s: string) { forall i :: 0 <= i < |s| ==> isPrint(s[i]) }

  function EscapeAll(isPrint: Printable, s: string): string {
    if s == [] then [] else EscapeChar(isPrint, s[0]) + EscapeAll(isPrint, s[1..])
  }

  /** fmt's %q */
  function Quoted(isPrint: Printable, s: string): string { "\"" + EscapeAll(isPrint, s) + "\"" }

  /** What the lexer makes of one escaped character: one that is not printable
      comes back as its escape sequence, backslash and all. */
  function ReadBack(isPrint: Printable, c: char): string {
    if isPrint(c) then [c] else EscapeChar(isPrint, c)
  }

  function ReadBackAll(isPrint: Printable, s: string): string {
    if s == [] then [] else ReadBack(isPrint, s[0]) + ReadBackAll(isPrint, s[1..])
  }

  /** Characters with no meaning to the lexer. */
  predicate Plain(s: string) {
    forall i :: 0 <= i < |s| ==> !IsSpace(s[i]) && !IsQuote(s[i]) && !IsEscape(s[i])
  }

  lemma {:induction false} LexPlain(tokens: seq<string>, token: string, quoted: bool, w: string, rest: string)
    requires Plain(w)
    ensures Lex(tokens, Scan(Word, token, quoted), w + rest) == Lex(tokens, Scan(Word, token + w, quoted), rest)
    decreases |w|
  {
    if w == [] {
      assert w + rest == rest && token + w == token;
    } else {
      assert (w + rest)[0] == w[0] && (w + rest)[1..] == w[1..] + rest;
      LexPlain(tokens, token + [w[0]], quoted, w[1..], rest);
      assert token + [w[0]] + w[1..] == token + w;
    }
  }

  /** A plain word followed by a blank is one token. */
  lemma LexWord(tokens: seq<string>, w: string, rest: string)
    requires Plain(w) && w != ""
    ensures Lex(tokens, START, w + " " + rest) == Lex(tokens + [w], START, rest)
  {
    var s := w + " " + rest;
    var t := w[1..] + (" " + rest);
    assert s[0] == w[0] && s[1..] == t && "" + [w[0]] == [w[0]];
    assert Lex(tokens, START, s) == Lex(tokens, Scan(Word, [w[0]], false), t);
    LexPlain(tokens, [w[0]], false, w[1..], " " + rest);
    assert [w[0]] + w[1..] == w;
    assert (" " + rest)[1..] == rest;
  }

  function InQuotes(token: string): Scan { Scan(Quote('\"'), token, true) }

  lemma FeedPlainInQuotes(tokens: seq<string>, token: string, quoted: bool, c: char, rest: string)
    requires c != '\"' && c != '\\'
    ensures Lex(tokens, Scan(Quote('\"'), token, quoted), [c] + rest) == Lex(tokens, InQuotes(token + [c]), rest)
  {
    assert ([c] + rest)[1..] == rest;
  }

  lemma FeedEscapeInQuotes(tokens: seq<string>, token: string, quoted: bool, c: char, rest: string)
    ensures Lex(tokens, Scan(Quote('\"'), token, quoted), ['\\', c] + rest) ==
            Lex(tokens, InQuotes(if c == '\\' || c == '\"' then token + [c] else token + ['\\', c]), rest)
  {
    var s := ['\\', c] + rest;
    assert s[1..][0] == c && s[1..][1..] == rest;
    assert token + "\\" + [c] == token + ['\\', c];
  }

  lemma {:induction false} LexPlainInQuotes(tokens: seq<string>, token: string, w: string, rest: string)
    requires NoEscapes(w)
    ensures Lex(tokens, InQuotes(token), w + rest) == Lex(tokens, InQuotes(token + w), rest)
    decreases |w|
  {
    hide Lex;
    if w == [] {
      assert w + rest == rest && token + w == token;
    } else {
      assert w + rest == [w[0]] + (w[1..] + rest);
      FeedPlainInQuotes(tokens, token, true, w[0], w[1..] + rest);
      LexPlainInQuotes(tokens, token + [w[0]], w[1..], rest);
      assert token + [w[0]] + w[1..] == token + w;
    }
  }

  /** One escaped character inside double quotes. */
  lemma LexEscaped(isPrint: Printable, tokens: seq<string>, token: string, quoted: bool, c: char, rest: string)
    requires IsGoPrint(isPrint)
    ensures Lex(tokens, Scan(Quote('\"'), token, quoted), EscapeChar(isPrint, c) + rest) ==
            Lex(tokens, InQuotes(token + ReadBack(isPrint, c)), rest)
  {
    hide Lex, Feed, Letter, HexDigits;
    if c == '\"' || c == '\\' {
      FeedEscapeInQuotes(tokens, token, quoted, c, rest);
    } else if isPrint(c) {
      FeedPlainInQuotes(tokens, token, quoted, c, rest);
    } else {
      var l, h := Letter(c), HexDigits(c);
      assert ['\\', l] + h + rest == ['\\', l] + (h + rest);
      FeedEscapeInQuotes(tokens, token, quoted, l, h + rest);
      LexPlainInQuotes(tokens, token + ['\\', l], h, rest);
      assert token + ['\\', l] + h == token + (['\\', l] + h);
    }
  }

  lemma CloseQuote(tokens: seq<string>, token: string, quoted: bool)
    ensures Lex(tokens, Scan(Quote('\"'), token, quoted), "\"") == Result(Push(tokens, token), NoError)
  {
    assert Feed(Scan(Quote('\"'), token, quoted), '\"') == Continue(Scan(Word, token, true));
  }

  lemma {:induction false} LexQuoted(isPrint: Printable, tokens: seq<string>, token: string, quoted: bool, s: string)
    requires IsGoPrint(isPrint)
    ensures Lex(tokens, Scan(Quote('\"'), token, quoted), EscapeAll(isPrint, s) + "\"") ==
            Result(Push(tokens, token + ReadBackAll(isPrint, s)), NoError)
    decreases |s|
  {
    hide Lex, EscapeChar, ReadBack;
    if s == [] {
      assert EscapeAll(isPrint, s) + "\"" == "\"";
      assert token + ReadBackAll(isPrint, s) == token;
      CloseQuote(tokens, token, quoted);
    } else {
      var rest := EscapeAll(isPrint, s[1..]) + "\"";
      assert EscapeAll(isPrint, s) + "\"" == EscapeChar(isPrint, s[0]) + rest;
      LexEscaped(isPrint, tokens, token, quoted, s[0], rest);
      LexQuoted(isPrint, tokens, token + ReadBack(isPrint, s[0]), true, s[1..]);
      assert token + ReadBack(isPrint, s[0]) + ReadBackAll(isPrint, s[1..]) == token + ReadBackAll(isPrint, s);
    }
  }

  lemma {:induction false} ReadBackLength(isPrint: Printable, s: string)
    requires IsGoPrint(isPrint)
    ensures |ReadBackAll(isPrint, s)| >= |s|
    ensures AllPrintable(isPrint, s) ==> ReadBackAll(isPrint, s) == s
    ensures !AllPrintable(isPrint, s) ==> |ReadBackAll(isPrint, s)| > |s|
  {
    if s != [] {
      ReadBackLength(isPrint, s[1..]);
      assert AllPrintable(isPrint, s) <==> isPrint(s[0]) && AllPrintable(isPrint, s[1..]);
      assert s == [s[0]] + s[1..];
    }
  }

  /** fmt.Sprintf("%s -c %q", shell, cmd) */
  function CommandLine(isPrint: Printable, shell: string, cmd: string): string {
    shell + " -c " + Quoted(isPrint, cmd)
  }

  // Any shell path: where the lexer stands after it

  /** Tokens and scanner state after a text, without its end. */
  function Reach(tokens: seq<string>, scan: Scan, s: string): (seq<string>, Scan)
    decreases |s|
  {
    if s == [] then (tokens, scan)
    else
      match Feed(scan, s[0])
      case Stop => Reach(Push(tokens, scan.token), START, s[1..])
      case Continue(next) => Reach(tokens, next, s[1..])
  }

  lemma {:induction false} LexReach(tokens: seq<string>, scan: Scan, s: string, t: string)
    ensures var (ts, sc) := Reach(tokens, scan, s); Lex(tokens, scan, s + t) == Lex(ts, sc, t)
    decreases |s|
  {
    if s == [] {
      assert s + t == t;
    } else {
      assert (s + t)[0] == s[0] && (s + t)[1..] == s[1..] + t;
      match Feed(scan, s[0]) {
        case Stop => LexReach(Push(tokens, scan.token), START, s[1..], t);
        case Continue(next) => LexReach(tokens, next, s[1..], t);
      }
    }
  }

  ghost predicate QuoteOk(m: Mode) { m.Quote? ==> IsQuote(m.q) }

  lemma {:induction false} ReachOk(tokens: seq<string>, scan: Scan, s: string)
    requires QuoteOk(scan.mode)
    ensures QuoteOk(Reach(tokens, scan, s).1.mode)
    decreases |s|
  {
    if s != [] {
      match Feed(scan, s[0]) {
        case Stop => ReachOk(Push(tokens, scan.token), START, s[1..]);
        case Continue(next) => ReachOk(tokens, next, s[1..]);
      }
    }
  }

  /** The lexer after a shell path, and its error if the line ended there. */
  lemma SplitReach(shell: string, rest: string)
    ensures var (ts, sc) := Reach([], START, shell);
            && QuoteOk(sc.mode) && Split(shell) == Result(Push(ts, sc.token), AtEnd(sc.mode))
            && Split(shell + rest) == Lex(ts, sc, rest)
  {
    LexReach([], START, shell, []);
    assert shell + [] == shell;
    LexReach([], START, shell, rest);
    ReachOk([], START, shell);
  }

  // Double quotes that the shell path has opened stay unbalanced

  /** Outside of double quotes and escapes. */
  ghost predicate Outside(m: Mode) { m.Space? || m.Word? || m == Quote('\'') }

  lemma {:induction false} OutsideStays(tokens: seq<string>, scan: Scan, w: string)
    requires Outside(scan.mode) && NoEscapes(w)
    ensures Outside(Reach(tokens, scan, w).1.mode)
    decreases |w|
  {
    if w != [] {
      assert w[0] != '\"' && w[0] != '\\';
      match Feed(scan, w[0]) {
        case Stop => OutsideStays(Push(tokens, scan.token), START, w[1..]);
        case Continue(next) => OutsideStays(tokens, next, w[1..]);
      }
    }
  }

  lemma OutsideEscape(tokens: seq<string>, scan: Scan, c: char, w: string)
    requires Outside(scan.mode) && c != '\'' && NoEscapes(w)
    ensures Outside(Reach(tokens, scan, ['\\', c] + w).1.mode)
  {
    var s := ['\\', c] + w;
    assert s[0] == '\\' && s[1..][0] == c && s[1..][1..] == w;
    var next := Feed(scan, '\\').scan;
    var after := Feed(next, c).scan;
    assert Reach(tokens, scan, s) == Reach(tokens, after, w);
    OutsideStays(tokens, after, w);
  }

  lemma OutsideChar(isPrint: Printable, tokens: seq<string>, scan: Scan, c: char)
    requires Outside(scan.mode)
    ensures Outside(Reach(tokens, scan, EscapeChar(isPrint, c)).1.mode)
  {
    hide Reach, Letter, HexDigits;
    if c == '\"' || c == '\\' {
      OutsideEscape(tokens, scan, c, []);
      assert ['\\', c] + [] == ['\\', c];
    } else if isPrint(c) {
      OutsideStays(tokens, scan, [c]);
    } else {
      LetterIsNoQuote(c);
      OutsideEscape(tokens, scan, Letter(c), HexDigits(c));
    }
  }

  lemma LetterIsNoQuote(c: char)
    ensures Letter(c) != '\''
  {}

  /** A quoted text read from outside double quotes ends inside a quotation. */
  lemma {:induction false} UnbalancedTail(isPrint: Printable, tokens: seq<string>, scan: Scan, s: string)
    requires Outside(scan.mode)
    ensures Lex(tokens, scan, EscapeAll(isPrint, s) + "\"").error == NoClosing
    decreases |s|
  {
    hide EscapeChar, Reach, Lex;
    if s == [] {
      assert EscapeAll(isPrint, s) + "\"" == ['\"'] + [];
      LoneQuote(tokens, scan);
    } else {
      var rest := EscapeAll(isPrint, s[1..]) + "\"";
      assert EscapeAll(isPrint, s) + "\"" == EscapeChar(isPrint, s[0]) + rest;
      LexReach(tokens, scan, EscapeChar(isPrint, s[0]), rest);
      OutsideChar(isPrint, tokens, scan, s[0]);
      var (ts, sc) := Reach(tokens, scan, EscapeChar(isPrint, s[0]));
      UnbalancedTail(isPrint, ts, sc, s[1..]);
    }
  }

  lemma LoneQuote(tokens: seq<string>, scan: Scan)
    requires Outside(scan.mode)
    ensures Lex(tokens, scan, ['\"'] + []).error == NoClosing
  {
    LexCons(tokens, scan, '\"', []);
  }

  lemma LexCons(tokens: seq<string>, scan: Scan, c: char, rest: string)
    ensures Lex(tokens, scan, [c] + rest) ==
            match Feed(scan, c)
            case Stop => Lex(Push(tokens, scan.token), START, rest)
            case Continue(next) => Lex(tokens, next, rest)
  {
    assert ([c] + rest)[0] == c && ([c] + rest)[1..] == rest;
  }

  /** The text between shell path and command. */
  const MIDDLE: string := " -c \""

  /** The five characters of the middle, one at a time. */
  lemma LexMiddle(tokens: seq<string>, scan: Scan, rest: string)
    requires scan.mode.Quote? || scan.mode.Escape?
    requires QuoteOk(scan.mode)
    ensures scan.mode == Quote('\"') ==>
              Lex(tokens, scan, MIDDLE + rest) == Lex(tokens, Scan(Word, scan.token + " -c ", true), rest)
    ensures scan.mode == Quote('\'') ==>
              Lex(tokens, scan, MIDDLE + rest) == Lex(tokens, Scan(Quote('\''), scan.token + " -c \"", true), rest)
    ensures scan.mode == Escape(true) ==>
              Lex(tokens, scan, MIDDLE + rest) == Lex(tokens, Scan(Word, scan.token + "\\ -c ", true), rest)
    ensures scan.mode == Escape(false) ==>
              Lex(tokens, scan, MIDDLE + rest) ==
              Lex(tokens + [scan.token + " -c"], Scan(Quote('\"'), "", false), rest)
  {
    hide Lex;
    var r4 := ['\"'] + rest;
    var r3 := [' '] + r4;
    var r2 := ['c'] + r3;
    var r1 := ['-'] + r2;
    assert MIDDLE + rest == [' '] + r1;
    LexCons(tokens, scan, ' ', r1);
    var s1 := Feed(scan, ' ').scan;
    LexCons(tokens, s1, '-', r2);
    var s2 := Feed(s1, '-').scan;
    LexCons(tokens, s2, 'c', r3);
    var s3 := Feed(s2, 'c').scan;
    LexCons(tokens, s3, ' ', r4);
    if scan.mode == Escape(false) {
      assert s3.token == scan.token + " -c";
      LexCons(tokens + [s3.token], START, '\"', rest);
    } else {
      var s4 := Feed(s3, ' ').scan;
      LexCons(tokens, s4, '\"', rest);
      var kept := if scan.mode == Escape(true) then scan.token + "\\" else scan.token;
      assert s4.token == kept + " -c ";
      assert scan.token + "\\" + " -c " == scan.token + "\\ -c ";
      assert scan.token + " -c " + "\"" == scan.token + " -c \"";
    }
  }

  /** A path that leaves a quotation open makes the whole line fail; one that ends
      in a backslash fails or swallows the blank before -c. */
  lemma SplitBadShell(isPrint: Printable, shell: string, cmd: string)
    requires IsGoPrint(isPrint) && Split(shell).error != NoError
    ensures var line := Split(CommandLine(isPrint, shell, cmd));
            || line.error == NoClosing
            || exists ts, u :: line == Result(Push(ts + [u + " -c"], ReadBackAll(isPrint, cmd)), NoError)
    ensures Split(shell).error == NoClosing ==> Split(CommandLine(isPrint, shell, cmd)).error == NoClosing
  {
    hide Feed, Lex, Reach;
    var body := EscapeAll(isPrint, cmd) + "\"";
    assert CommandLine(isPrint, shell, cmd) == shell + (MIDDLE + body);
    SplitReach(shell, MIDDLE + body);
    var (ts, sc) := Reach([], START, shell);
    LexMiddle(ts, sc, body);
    if sc.mode == Escape(false) {
      LexQuoted(isPrint, ts + [sc.token + " -c"], "", false, cmd);
      assert "" + ReadBackAll(isPrint, cmd) == ReadBackAll(isPrint, cmd);
    } else if sc.mode == Quote('\"') {
      UnbalancedTail(isPrint, ts, Scan(Word, sc.token + " -c ", true), cmd);
    } else if sc.mode == Escape(true) {
      UnbalancedTail(isPrint, ts, Scan(Word, sc.token + "\\ -c ", true), cmd);
    } else {
      UnbalancedTail(isPrint, ts, Scan(Quote('\''), sc.token + " -c \"", true), cmd);
    }
  }

  // A path is its own only token exactly if it is plain

  function Total(tokens: seq<string>): nat {
    if tokens == [] then 0 else Total(tokens[..|tokens| - 1]) + |tokens[|tokens| - 1]|
  }

  lemma TotalPush(tokens: seq<string>, token: string)
    ensures Total(Push(tokens, token)) == Total(tokens) + |token|
  {
    assert (tokens + [token])[..|tokens|] == tokens;
  }

  /** Characters held back: a backslash in double quotes may yet be kept. */
  function Held(scan: Scan): nat { |scan.token| + (if scan.mode == Escape(true) then 1 else 0) }

  /** The tokens never get longer than the text. */
  lemma {:induction false} TotalBound(tokens: seq<string>, scan: Scan, s: string)
    ensures Total(Lex(tokens, scan, s).tokens) <= Total(tokens) + Held(scan) + |s|
    decreases |s|
  {
    hide Total;
    TotalPush(tokens, scan.token);
    if s != [] {
      match Feed(scan, s[0]) {
        case Stop => TotalBound(Push(tokens, scan.token), START, s[1..]);
        case Continue(next) => TotalBound(tokens, next, s[1..]);
      }
    }
  }

  /** A character with a meaning to the lexer is not in the tokens. */
  lemma {:induction false} TotalStrict(tokens: seq<string>, scan: Scan, s: string)
    requires (scan.mode.Space? || scan.mode.Word?) && !Plain(s)
    ensures Total(Lex(tokens, scan, s).tokens) < Total(tokens) + |scan.token| + |s|
    decreases |s|
  {
    hide Total;
    TotalPush(tokens, scan.token);
    var c := s[0];
    if IsSpace(c) || IsQuote(c) || IsEscape(c) {
      match Feed(scan, c) {
        case Stop => TotalBound(Push(tokens, scan.token), START, s[1..]);
        case Continue(next) => TotalBound(tokens, next, s[1..]);
      }
    } else {
      assert !Plain(s[1..]) by {
        var i :| 0 <= i < |s| && (IsSpace(s[i]) || IsQuote(s[i]) || IsEscape(s[i]));
        assert s[1..][i - 1] == s[i];
      }
      TotalStrict(tokens, Feed(scan, c).scan, s[1..]);
    }
  }

  lemma OwnToken(shell: string)
    ensures Split(shell) == Result([shell], NoError) <==> Plain(shell) && shell != ""
  {
    hide Plain;
    if !Plain(shell) {
      TotalStrict([], START, shell);
      TotalPush([], shell);
    } else if shell != "" {
      WordAlone(shell);
    }
  }

  lemma WordAlone(w: string)
    requires Plain(w) && w != ""
    ensures Split(w) == Result([w], NoError)
  {
    var t := w[1..];
    assert "" + [w[0]] == [w[0]];
    assert Lex([], START, w) == Lex([], Scan(Word, [w[0]], false), t);
    LexPlain([], [w[0]], false, t, []);
    assert t + [] == t && [w[0]] + t == w;
  }

  // The line that the server builds

  /** What shlex makes of the rest of the line. */
  lemma SplitCommand(isPrint: Printable, cmd: string)
    requires IsGoPrint(isPrint)
    ensures Split("-c " + Quoted(isPrint, cmd)) == Result(Push(["-c"], ReadBackAll(isPrint, cmd)), NoError)
  {
    hide Feed;
    var body := EscapeAll(isPrint, cmd) + "\"";
    assert "-c " + Quoted(isPrint, cmd) == "-c" + " " + ("\"" + body);
    LexWord([], "-c", "\"" + body);
    assert [] + ["-c"] == ["-c"];
    OpenQuote(["-c"], body);
    LexQuoted(isPrint, ["-c"], "", false, cmd);
    assert "" + ReadBackAll(isPrint, cmd) == ReadBackAll(isPrint, cmd);
  }

  lemma OpenQuote(tokens: seq<string>, rest: string)
    ensures Lex(tokens, START, "\"" + rest) == Lex(tokens, Scan(Quote('\"'), "", false), rest)
  {
    assert ("\"" + rest)[1..] == rest;
  }

  /** What shlex makes of the whole line if the path alone splits without error. */
  lemma SplitCommandLine(isPrint: Printable, shell: string, cmd: string)
    requires IsGoPrint(isPrint) && Split(shell).error == NoError
    ensures Split(CommandLine(isPrint, shell, cmd)) ==
            Result(Split(shell).tokens + Push(["-c"], ReadBackAll(isPrint, cmd)), NoError)
  {
    hide Split;
    var rest := "-c " + Quoted(isPrint, cmd);
    assert CommandLine(isPrint, shell, cmd) == shell + [' '] + rest;
    SplitConcat(shell, ' ', rest);
    SplitCommand(isPrint, cmd);
  }

  /** Splitting undoes the quoting exactly for nonempty commands of printable
      characters and nonempty shell paths without white space, quotes and
      backslashes. */
  lemma QuotingUndoneIff(isPrint: Printable, shell: string, cmd: string)
    requires IsGoPrint(isPrint)
    ensures Split(CommandLine(isPrint, shell, cmd)) == Result([shell, "-c", cmd], NoError)
        <==> Plain(shell) && shell != "" && cmd != "" && AllPrintable(isPrint, cmd)
  {
    hide Split, Plain, CommandLine, ReadBackAll, AllPrintable;
    var read := ReadBackAll(isPrint, cmd);
    ReadBackLength(isPrint, cmd);
    OwnToken(shell);
    if Split(shell).error == NoError {
      SplitCommandLine(isPrint, shell, cmd);
      TokensSplit(Split(shell).tokens, read, shell, cmd);
    } else {
      SplitBadShell(isPrint, shell, cmd);
      forall ts: seq<string>, u: string
        ensures Push(ts + [u + " -c"], read) != [shell, "-c", cmd]
      {
        GluedDiffers(ts, u, read, shell, cmd);
      }
    }
  }

  lemma TokensSplit(ts: seq<string>, read: string, shell: string, cmd: string)
    requires |read| >= |cmd|
    ensures ts + Push(["-c"], read) == [shell, "-c", cmd] <==> ts == [shell] && read == cmd && cmd != ""
  {
    var all := ts + Push(["-c"], read);
    assert |all| >= 1 && all[|all| - 1] == (if read == "" then "-c" else read);
    if all == [shell, "-c", cmd] {
      assert |ts| >= 1 && all[0] == ts[0];
    }
  }

  lemma GluedDiffers(ts: seq<string>, u: string, read: string, shell: string, cmd: string)
    requires |read| >= |cmd|
    ensures Push(ts + [u + " -c"], read) != [shell, "-c", cmd]
  {
    var all := Push(ts + [u + " -c"], read);
    if |all| == 3 {
      if read == "" {
        assert all[2] == u + " -c";
      } else {
        assert all[1] == u + " -c";
      }
    }
  }
}
