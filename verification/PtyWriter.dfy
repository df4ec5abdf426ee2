/** The newline handling of session.Write in pkg/ssh/session.go. */
module PtyWriter {
  import opened Strings

  /** One pass that puts a CR before each LF that has none. */
  function Normalise(s: string, afterCR: bool): string {
    if s == [] then []
    else (if s[0] == '\n' && !afterCR then "\r\n" else [s[0]]) + Normalise(s[1..], s[0] == '\r')
  }

  /** Position i follows a CR. */
  predicate FollowsCR(s: string, i: nat, afterCR: bool)
    requires i < |s|
  {
    if i == 0 then afterCR else s[i - 1] == '\r'
  }

  predicate NoBareLF(s: string, afterCR: bool) {
    forall i :: 0 <= i < |s| && s[i] == '\n' ==> FollowsCR(s, i, afterCR)
  }

  /** The first replacement, LF by CR LF. */
  function Pass1(s: string): string { ReplaceAll(s, "\n", "\r\n") }

  /** The second replacement, CR CR LF by CR LF. */
  function Pass2(s: string): string { ReplaceAll(s, "\r\r\n", "\r\n") }

  lemma Pass1Cons(c: char, s: string)
    ensures Pass1([c] + s) == (if c == '\n' then "\r\n" else [c]) + Pass1(s)
  {
    var t := [c] + s;
    assert t[..1] == [c] && t[1..] == s;
  }

  lemma Pass2Match(s: string)
    ensures Pass2("\r\r\n" + s) == "\r\n" + Pass2(s)
  {
    var t := "\r\r\n" + s;
    assert t[..3] == "\r\r\n" && t[3..] == s;
  }

  lemma Pass2Other(c: char, s: string)
    requires c == '\r' ==> |s| < 2 || s[0] != '\r' || s[1] != '\n'
    ensures Pass2([c] + s) == [c] + Pass2(s)
  {
    var t := [c] + s;
    assert t[0] == c && t[1..] == s;
    if |t| >= 3 {
      assert t[..3][0] == c && t[..3][1] == s[0] && t[..3][2] == s[1];
      assert t[..3] != "\r\r\n";
    }
  }

  /** How the first pass starts: an LF is never second after a CR of the input. */
  lemma Pass1Start(s: string)
    ensures s == [] ==> Pass1(s) == []
    ensures s != [] && s[0] == '\n' ==> Pass1(s) == "\r\n" + Pass1(s[1..])
    ensures s != [] && s[0] != '\n' ==>
              Pass1(s) == [s[0]] + Pass1(s[1..]) && (|Pass1(s)| >= 2 ==> Pass1(s)[1] != '\n')
  {
    if s != [] {
      assert s == [s[0]] + s[1..];
      Pass1Cons(s[0], s[1..]);
      if s[1..] != [] {
        assert s[1..] == [s[1]] + s[2..];
        Pass1Cons(s[1], s[2..]);
      }
    }
  }

  /** The two replacements together are the one pass, also after a CR. */
  lemma {:induction false} TwoPasses(s: string)
    ensures Pass2(Pass1(s)) == Normalise(s, false)
    decreases |s|
  {
    hide Pass1, Pass2;
    Pass1Start(s);
    if s == [] {
      Pass2Nothing();
    } else if s[0] == '\n' {
      // CR LF: the LF follows a CR that starts no match
      TwoPasses(s[1..]);
      var rest := Pass1(s[1..]);
      assert "\r\n" + rest == ['\r'] + (['\n'] + rest);
      Pass2Other('\r', ['\n'] + rest);
      Pass2Other('\n', rest);
      NormaliseAfterLF(s[1..]);
    } else if s[0] == '\r' && |s| > 1 && s[1] == '\n' {
      Pass1Start(s[1..]);
      TwoPasses(s[2..]);
      assert s[1..][1..] == s[2..];
      assert Pass1(s) == "\r\r\n" + Pass1(s[2..]);
      Pass2Match(Pass1(s[2..]));
    } else {
      TwoPasses(s[1..]);
      var rest := Pass1(s[1..]);
      Pass1Start(s[1..]);
      Pass2Other(s[0], rest);
      if s[0] == '\r' {
        AfterCRWithoutLF(s[1..]);
      }
    }
  }

  lemma Pass2Nothing()
    ensures Pass2("") == ""
  {}

  lemma NormaliseAfterLF(s: string)
    ensures Normalise(['\n'] + s, false) == "\r\n" + Normalise(s, false)
  {
    assert (['\n'] + s)[1..] == s;
  }

  lemma AfterCRWithoutLF(s: string)
    requires s == [] || s[0] != '\n'
    ensures Normalise(s, true) == Normalise(s, false)
  {}

  lemma NoBareLFCons(s: string, afterCR: bool)
    requires s != []
    ensures NoBareLF(s, afterCR) <==> (s[0] == '\n' ==> afterCR) && NoBareLF(s[1..], s[0] == '\r')
  {
    var t := s[1..];
    if NoBareLF(s, afterCR) {
      assert s[0] == '\n' ==> FollowsCR(s, 0, afterCR);
      forall i | 0 <= i < |t| && t[i] == '\n'
        ensures FollowsCR(t, i, s[0] == '\r')
      {
        assert FollowsCR(s, i + 1, afterCR);
      }
    }
    if (s[0] == '\n' ==> afterCR) && NoBareLF(t, s[0] == '\r') {
      forall i | 0 <= i < |s| && s[i] == '\n'
        ensures FollowsCR(s, i, afterCR)
      {
        if i > 0 {
          assert FollowsCR(t, i - 1, s[0] == '\r');
        }
      }
    }
  }

  /** Text without a bare LF is left alone, and only such text is. */
  lemma {:induction false} UnchangedIff(s: string, afterCR: bool)
    ensures |Normalise(s, afterCR)| >= |s|
    ensures Normalise(s, afterCR) == s <==> NoBareLF(s, afterCR)
    ensures !NoBareLF(s, afterCR) ==> |Normalise(s, afterCR)| > |s|
  {
    if s != [] {
      UnchangedIff(s[1..], s[0] == '\r');
      NoBareLFCons(s, afterCR);
      var n := Normalise(s[1..], s[0] == '\r');
      assert s == [s[0]] + s[1..];
      assert ([s[0]] + n)[1..] == n;
    }
  }

  lemma {:induction false} ResultHasNoBareLF(s: string, afterCR: bool)
    ensures NoBareLF(Normalise(s, afterCR), afterCR)
  {
    if s != [] {
      ResultHasNoBareLF(s[1..], s[0] == '\r');
    }
  }

  /** Normalising twice is normalising once. */
  lemma Idempotent(s: string)
    ensures Normalise(Normalise(s, false), false) == Normalise(s, false)
  {
    ResultHasNoBareLF(s, false);
    UnchangedIff(Normalise(s, false), false);
  }

  /** The last character is a CR; before any character, what was there before. */
  predicate EndsInCR(s: string, afterCR: bool) { if s == [] then afterCR else s[|s| - 1] == '\r' }

  /** Text in two parts is normalised part by part if the second part knows how
      the first one ended. */
  lemma {:induction false} NormaliseConcat(a: string, b: string, afterCR: bool)
    ensures Normalise(a + b, afterCR) == Normalise(a, afterCR) + Normalise(b, EndsInCR(a, afterCR))
  {
    hide Normalise;
    if a == [] {
      assert a + b == b;
      NormaliseNothing(afterCR);
    } else {
      var rest, cr := a[1..], a[0] == '\r';
      NormaliseConcat(rest, b, cr);
      assert (a + b)[0] == a[0] && (a + b)[1..] == rest + b;
      Unroll(a, afterCR);
      Unroll(a + b, afterCR);
      assert EndsInCR(a, afterCR) == EndsInCR(rest, cr);
    }
  }

  lemma NormaliseNothing(afterCR: bool)
    ensures Normalise([], afterCR) == []
  {}

  lemma Unroll(s: string, afterCR: bool)
    requires s != []
    ensures Normalise(s, afterCR) ==
            (if s[0] == '\n' && !afterCR then "\r\n" else [s[0]]) + Normalise(s[1..], s[0] == '\r')
  {}

  /** One character alone: with the law for parts this fixes the whole function. */
  lemma NormaliseChar(c: char, afterCR: bool)
    ensures Normalise([c], afterCR) == if c == '\n' && !afterCR then ['\r', '\n'] else [c]
  {}

  /** Two writes send what one write of the whole would, exactly if no CR LF is
      torn apart between them. */
  lemma ChunksAgreeIff(a: string, b: string)
    ensures Normalise(a + b, false) == Normalise(a, false) + Normalise(b, false)
        <==> !(EndsInCR(a, false) && b != [] && b[0] == '\n')
  {
    NormaliseConcat(a, b, false);
    if EndsInCR(a, false) && b != [] && b[0] == '\n' {
      assert |Normalise(b, false)| == |Normalise(b, true)| + 1;
    } else if EndsInCR(a, false) {
      AfterCRWithoutLF(b);
    }
  }

  /** Write: what reaches the channel, and the count that is reported for n bytes
      accepted there. */
  method Write(pty: bool, p: string, accepted: nat) returns (sent: string, n: nat)
    ensures sent == if pty then Normalise(p, false) else p
    ensures n == if pty && accepted > |p| then |p| else accepted
  {
    sent := p;
    n := accepted;
    if pty {
      TwoPasses(p);
      sent := ReplaceAll(sent, "\n", "\r\n");
      sent := ReplaceAll(sent, "\r\r\n", "\r\n");
      if n > |p| {
        n := |p|;
      }
    }
  }
}
