/** The shell-like lexer of pkg/shlex/shlex.go in posix, whitespace-split mode. */
module Shlex {

  /** unicode.IsSpace */
  predicate IsSpace(c: char) {
    || c == ' ' || '\t' <= c <= '\r' || c == '\U{0085}' || c == '\U{00A0}' || c == '\U{1680}'
    || '\U{2000}' <= c <= '\U{200A}' || c == '\U{2028}' || c == '\U{2029}' || c == '\U{202F}'
    || c == '\U{205F}' || c == '\U{3000}'
  }

  predicate IsQuote(c: char) { c == '\'' || c == '\"' }

  predicate IsEscape(c: char) { c == '\\' }

  /** The scanner states: white space, inside a word, inside a quotation, after a
      backslash that stood in a double quotation or outside of it. */
  datatype Mode = Space | Word | Quote(q: char) | Escape(inQuote: bool)

  datatype Scan = Scan(mode: Mode, token: string, quoted: bool)

  const START: Scan := Scan(Space, "", false)

  datatype Reaction = Continue(scan: Scan) | Stop

  datatype Error = NoError | NoClosing | NoEscaped

  /** What readToken does with the next rune. */
  function Feed(s: Scan, c: char): Reaction {
    match s.mode
    case Space =>
      if IsSpace(c) then Stop
      else if IsEscape(c) then Continue(s.(mode := Escape(false)))
      else if IsQuote(c) then Continue(s.(mode := Quote(c)))
      else Continue(s.(mode := Word, token := s.token + [c]))
    case Quote(q) =>
      if c == q then Continue(Scan(Word, s.token, true))
      else if IsEscape(c) && q == '\"' then Continue(Scan(Escape(true), s.token, true))
      else Continue(Scan(s.mode, s.token + [c], true))
    case Escape(inQuote) =>
      var kept := if inQuote && c != '\\' && c != '\"' then s.token + "\\" else s.token;
      Continue(Scan(if inQuote then Quote('\"') else Word, kept + [c], s.quoted))
    case Word =>
      if IsSpace(c) then (if s.token != "" || s.quoted then Stop else Continue(s))
      else if IsQuote(c) then Continue(s.(mode := Quote(c)))
      else if IsEscape(c) then Continue(s.(mode := Escape(false)))
      else Continue(s.(token := s.token + [c]))
  }

  /** The error at the end of the input. */
  function AtEnd(m: Mode): Error {
    match m
    case Quote(_) => NoClosing
    case Escape(_) => NoEscaped
    case _ => NoError
  }

  function Push(tokens: seq<string>, token: string): seq<string> {
    if token == "" then tokens else tokens + [token]
  }

  datatype Result = Result(tokens: seq<string>, error: Error)

  /** Tokens and error of a string, from a scanner state on. */
  function Lex(tokens: seq<string>, scan: Scan, s: string): Result
    decreases |s|
  {
    if s == [] then Result(Push(tokens, scan.token), AtEnd(scan.mode))
    else
      match Feed(scan, s[0])
      case Stop => Lex(Push(tokens, scan.token), START, s[1..])
      case Continue(next) => Lex(tokens, next, s[1..])
  }

  /** The Lexer object: a reader and its methods. */
  class Lexer {
    var input: string

    constructor (s: string)
      ensures input == s
    {
      input := s;
    }

    /** readToken: it stops after a token, or at the end of the input. Each call
        that does not end consumes a rune. */
    method ReadToken(ghost tokens: seq<string>) returns (token: string, ended: bool, error: Error)
      modifies this
      ensures |input| <= |old(input)| && (!ended ==> |input| < |old(input)|)
      ensures !ended ==> Lex(tokens, START, old(input)) == Lex(Push(tokens, token), START, input)
      ensures ended ==> Lex(tokens, START, old(input)) == Result(Push(tokens, token), error)
    {
      var scan := START;
      while input != []
        invariant |input| <= |old(input)|
        invariant Lex(tokens, START, old(input)) == Lex(tokens, scan, input)
        decreases |input|
      {
        var next := input[0];
        input := input[1..];
        match Feed(scan, next) {
          case Stop => return scan.token, false, NoError;
          case Continue(s) => scan := s;
        }
      }
      return scan.token, true, AtEnd(scan.mode);
    }

    method Split() returns (result: Result)
      modifies this
      ensures result == Lex([], START, old(input))
    {
      var tokens := [];
      while true
        invariant Lex(tokens, START, input) == Lex([], START, old(input))
        decreases |input|
      {
        var token, ended, error := ReadToken(tokens);
        tokens := Push(tokens, token);
        if ended {
          return Result(tokens, error);
        }
      }
    }
  }

  function Split(s: string): Result { Lex([], START, s) }

  /** Between tokens nothing is pending; inside a word something is. */
  ghost predicate Sound(s: Scan) {
    && (s.mode.Space? ==> s.token == "")
    && (s.mode.Word? ==> s.token != "" || s.quoted)
    && (s.mode == Escape(true) ==> s.quoted)
  }

  lemma FeedSound(s: Scan, c: char)
    requires Sound(s)
    ensures Feed(s, c).Continue? ==> Sound(Feed(s, c).scan)
  {}

  /** Earlier tokens are only ever carried along. */
  lemma {:induction false} LexPrefix(before: seq<string>, tokens: seq<string>, scan: Scan, s: string)
    ensures Lex(before + tokens, scan, s) ==
            Result(before + Lex(tokens, scan, s).tokens, Lex(tokens, scan, s).error)
    decreases |s|
  {
    assert Push(before + tokens, scan.token) == before + Push(tokens, scan.token);
    if s != [] {
      match Feed(scan, s[0]) {
        case Stop => LexPrefix(before, Push(tokens, scan.token), START, s[1..]);
        case Continue(next) => LexPrefix(before, tokens, next, s[1..]);
      }
    }
  }

  lemma {:induction false} LexThenSpace(tokens: seq<string>, scan: Scan, a: string, c: char, b: string)
    requires Sound(scan) && IsSpace(c) && Lex(tokens, scan, a).error == NoError
    ensures Lex(tokens, scan, a + [c] + b) == Lex(Lex(tokens, scan, a).tokens, START, b)
    decreases |a|
  {
    var s := a + [c] + b;
    if a == [] {
      assert s[0] == c && s[1..] == b;
    } else {
      assert s[0] == a[0] && s[1..] == a[1..] + [c] + b;
      FeedSound(scan, a[0]);
      match Feed(scan, a[0]) {
        case Stop => LexThenSpace(Push(tokens, scan.token), START, a[1..], c, b);
        case Continue(next) => LexThenSpace(tokens, next, a[1..], c, b);
      }
    }
  }

  /** Splitting distributes over a separating white space: if a splits without
      error, a + " " + b gives the tokens of a, then those of b, and b's error. */
  lemma SplitConcat(a: string, c: char, b: string)
    requires IsSpace(c) && Split(a).error == NoError
    ensures Split(a + [c] + b) == Result(Split(a).tokens + Split(b).tokens, Split(b).error)
  {
    LexThenSpace([], START, a, c, b);
    LexPrefix(Split(a).tokens, [], START, b);
    assert Split(a).tokens + [] == Split(a).tokens;
  }
}
