/** The authentication chain of pkg/ssh/server.go: callbacks nested in partial
    success errors, built from the last method to the first. */
module AuthChain {
  import opened Sequences
  import opened Strings

  datatype Method = Password | PublicKey | KeyboardInteractive

  /** The error a callback returns when its handler says yes: nil, or a partial
      success that replaces the offered callbacks. */
  datatype NextAuth = Nil | PartialSuccess(next: Callbacks)

  /** A callback closure: its handler and what success leads to. */
  datatype Callback = Callback(handler: Method, nextAuth: NextAuth)

  datatype Callbacks = Callbacks(password: Option<Callback>, publicKey: Option<Callback>, keyboard: Option<Callback>)

  const NO_CALLBACKS: Callbacks := Callbacks(None, None, None)

  function MethodOf(name: string): Option<Method> {
    if name == "password" then Some(Password)
    else if name == "publickey" then Some(PublicKey)
    else if name == "keyboard-interactive" then Some(KeyboardInteractive)
    else None
  }

  function Name(m: Method): string {
    match m
    case Password => "password"
    case PublicKey => "publickey"
    case KeyboardInteractive => "keyboard-interactive"
  }

  /** Callbacks cs with the slot of one method filled. */
  function Install(cs: Callbacks, c: Callback): Callbacks {
    match c.handler
    case Password => cs.(password := Some(c))
    case PublicKey => cs.(publicKey := Some(c))
    case KeyboardInteractive => cs.(keyboard := Some(c))
  }

  /** The callbacks that offer one method only. */
  function Only(c: Callback): Callbacks { Install(NO_CALLBACKS, c) }

  function Offered(cs: Callbacks, m: Method): Option<Callback> {
    match m
    case Password => cs.password
    case PublicKey => cs.publicKey
    case KeyboardInteractive => cs.keyboard
  }

  /** The part of the server configuration that authentication looks at. */
  datatype Config = Config(callbacks: Callbacks, noClientAuth: bool)

  /** One attempt of the client: a method, and whether its handler accepts, or
      the method "none". */
  datatype Attempt = Attempt(m: Method, accepted: bool) | NoneAttempt

  /** The authentication layer: it stays put on a failure, replaces the offered
      callbacks on a partial success, after which "none" is refused, and is done
      on a plain success. */
  datatype Session = Waiting(offered: Callbacks, none: bool) | Authenticated

  function Try(s: Session, a: Attempt): Session {
    if s.Authenticated? then s
    else if a.NoneAttempt? then (if s.none then Authenticated else s)
    else if Offered(s.offered, a.m).None? || !a.accepted then s
    else
      match Offered(s.offered, a.m).value.nextAuth
      case Nil => Authenticated
      case PartialSuccess(next) => Waiting(next, false)
  }

  function TryAll(s: Session, attempts: seq<Attempt>): Session {
    if attempts == [] then s else Try(TryAll(s, attempts[..|attempts| - 1]), attempts[|attempts| - 1])
  }

  /** The methods that take part: known, with a handler, the first time listed. */
  ghost predicate IsValidList(names: seq<string>, handlers: set<Method>, valid: seq<Method>) {
    && (forall m :: m in valid <==> m in handlers && Name(m) in names)
    && NoRepeats(valid)
    && (forall i, j :: 0 <= i < j < |valid| ==> ListedBefore(names, Name(valid[i]), Name(valid[j])))
  }

  /** a occurs in names before every b. */
  ghost predicate ListedBefore(names: seq<string>, a: string, b: string) {
    exists p :: 0 <= p < |names| && names[p] == a && forall q :: 0 <= q <= p ==> names[q] != b
  }

  /** The list of the methods that take part. */
  function ValidMethods(names: seq<string>, handlers: set<Method>): seq<Method> {
    if names == [] then []
    else
      var init, name := names[..|names| - 1], names[|names| - 1];
      var valid := ValidMethods(init, handlers);
      if name !in init && MethodOf(name).Some? && MethodOf(name).value in handlers then valid + [MethodOf(name).value]
      else valid
  }

  lemma {:induction false} ValidMethodsIs(names: seq<string>, handlers: set<Method>)
    ensures IsValidList(names, handlers, ValidMethods(names, handlers))
  {
    if names != [] {
      var init, name := names[..|names| - 1], names[|names| - 1];
      ValidMethodsIs(init, handlers);
      FilterStep(init, name, handlers, ValidMethods(init, handlers), ValidMethods(names, handlers));
      assert names == init + [name];
    }
  }

  /** The filter loop. */
  method FilterMethods(names: seq<string>, handlers: set<Method>) returns (valid: seq<Method>)
    ensures valid == ValidMethods(names, handlers) && IsValidList(names, handlers, valid)
  {
    var seen: set<string> := {};
    valid := [];
    for i := 0 to |names|
      invariant forall n :: n in seen <==> n in names[..i]
      invariant valid == ValidMethods(names[..i], handlers)
    {
      var name := names[i];
      assert names[..i + 1][..i] == names[..i];
      if name !in seen {
        seen := seen + {name};
        var m := MethodOf(name);
        if m.Some? && m.value in handlers {
          valid := valid + [m.value];
        }
      }
    }
    assert names[..|names|] == names;
    ValidMethodsIs(names, handlers);
  }

  lemma ListedBeforeMore(names: seq<string>, name: string, a: string, b: string)
    requires ListedBefore(names, a, b) || (a in names && b !in names)
    ensures ListedBefore(names + [name], a, b)
  {
    var names' := names + [name];
    var p :| 0 <= p < |names| && names[p] == a && forall q :: 0 <= q <= p ==> names[q] != b;
    assert names'[p] == a && forall q :: 0 <= q <= p ==> names'[q] != b;
  }

  lemma FilterMembers(names: seq<string>, name: string, handlers: set<Method>, valid: seq<Method>, valid': seq<Method>, m: Method)
    requires m in valid <==> m in handlers && Name(m) in names
    requires valid' == if name !in names && MethodOf(name).Some? && MethodOf(name).value in handlers
                       then valid + [MethodOf(name).value] else valid
    ensures m in valid' <==> m in handlers && Name(m) in names + [name]
  {
    hide Name, MethodOf;
    NameOfMethod(m, name);
  }

  lemma FilterStep(names: seq<string>, name: string, handlers: set<Method>, valid: seq<Method>, valid': seq<Method>)
    requires IsValidList(names, handlers, valid)
    requires valid' == if name !in names && MethodOf(name).Some? && MethodOf(name).value in handlers
                       then valid + [MethodOf(name).value] else valid
    ensures IsValidList(names + [name], handlers, valid')
  {
    hide Name, MethodOf, ListedBefore;
    forall m: Method
      ensures m in valid' <==> m in handlers && Name(m) in names + [name]
    {
      FilterMembers(names, name, handlers, valid, valid', m);
    }
    forall i, j | 0 <= i < j < |valid'|
      ensures valid'[i] != valid'[j] && ListedBefore(names + [name], Name(valid'[i]), Name(valid'[j]))
    {
      assert valid'[i] == valid[i] && valid[i] in valid;
      if j == |valid| {
        NameOfMethod(valid'[j], name);
      } else {
        assert valid'[j] == valid[j];
      }
      ListedBeforeMore(names, name, Name(valid'[i]), Name(valid'[j]));
    }
  }

  lemma NameOfMethod(m: Method, name: string)
    ensures Name(m) == name <==> MethodOf(name) == Some(m)
  {}

  /** The chain for valid[i..]: the callback of its first method. */
  function Chain(valid: seq<Method>, i: nat): (c: Callback)
    requires i < |valid|
    ensures c.handler == valid[i]
    decreases |valid| - i
  {
    Callback(valid[i], if i + 1 == |valid| then Nil else PartialSuccess(Only(Chain(valid, i + 1))))
  }

  /** The reverse loop that builds the chain. */
  method BuildChain(methods: seq<Method>, config: Callbacks) returns (out: Callbacks)
    requires methods != []
    ensures out == Install(config, Chain(methods, 0))
  {
    out := config;
    var next := Nil;
    var i := |methods| - 1;
    while i >= 0
      invariant -1 <= i < |methods|
      invariant next == if i + 1 == |methods| then Nil else PartialSuccess(Only(Chain(methods, i + 1)))
      invariant out == if i == -1 then Install(config, Chain(methods, 0)) else config
      decreases i
    {
      var callback := Callback(methods[i], next);
      assert callback == Chain(methods, i);
      if i == 0 {
        out := Install(out, callback);
      }
      next := PartialSuccess(Only(callback));
      i := i - 1;
    }
  }

  /** configureAuthChain */
  method ConfigureAuthChain(names: seq<string>, handlers: set<Method>, config: Callbacks)
    returns (out: Callbacks)
    ensures out == Chained(names, handlers, config)
  {
    hide Install, Chain;
    var methods := FilterMethods(names, handlers);
    if methods == [] {
      return config;
    }
    out := BuildChain(methods, config);
  }

  /** The callbacks with the chain of the listed methods, if any takes part. */
  function Chained(names: seq<string>, handlers: set<Method>, config: Callbacks): Callbacks {
    var valid := ValidMethods(names, handlers);
    if valid == [] then config else Install(config, Chain(valid, 0))
  }

  /** The callbacks offer every method that has a handler, each on its own. */
  ghost predicate OffersEach(cs: Callbacks, handlers: set<Method>, before: Callbacks) {
    forall m :: Offered(cs, m) == if m in handlers then Some(Callback(m, Nil)) else Offered(before, m)
  }

  /** configureAllAuthMethods */
  method ConfigureAllAuthMethods(handlers: set<Method>, config: Callbacks) returns (out: Callbacks)
    ensures OffersEach(out, handlers, config)
  {
    out := config;
    if Password in handlers {
      out := out.(password := Some(Callback(Password, Nil)));
    }
    if PublicKey in handlers {
      out := out.(publicKey := Some(Callback(PublicKey, Nil)));
    }
    if KeyboardInteractive in handlers {
      out := out.(keyboard := Some(Callback(KeyboardInteractive, Nil)));
    }
  }

  /** Server.config: without any handler the client needs no authentication;
      listed methods form a chain, and otherwise each method is enough. The base
      is what ServerConfigCallback gave. */
  method Configure(names: seq<string>, handlers: set<Method>, base: Config) returns (out: Config)
    ensures out.noClientAuth <==> base.noClientAuth || handlers == {}
    ensures names == [] ==> OffersEach(out.callbacks, handlers, base.callbacks)
    ensures names != [] ==> out.callbacks == Chained(names, handlers, base.callbacks)
    ensures base == NO_CONFIG ==>
              forall attempts :: Authenticates(out, attempts) <==> Enough(names, handlers, attempts)
  {
    hide Chained, OffersEach, Authenticates, Enough;
    var noClientAuth := base.noClientAuth;
    if Password !in handlers && PublicKey !in handlers && KeyboardInteractive !in handlers {
      NoHandler(handlers);
      noClientAuth := true;
    }
    var callbacks := base.callbacks;
    if |names| > 0 {
      callbacks := ConfigureAuthChain(names, handlers, callbacks);
    } else {
      callbacks := ConfigureAllAuthMethods(handlers, callbacks);
    }
    out := Config(callbacks, noClientAuth);
    if base == NO_CONFIG {
      forall attempts
        ensures Authenticates(out, attempts) <==> Enough(names, handlers, attempts)
      {
        AuthenticatesIff(names, handlers, out, attempts);
      }
    }
  }

  const NO_CONFIG: Config := Config(NO_CALLBACKS, false)

  /** A client that makes these attempts gets in. */
  predicate Authenticates(config: Config, attempts: seq<Attempt>) {
    TryAll(Waiting(config.callbacks, config.noClientAuth), attempts).Authenticated?
  }

  /** What a client has to show: any method if none is listed; otherwise all that
      take part, in the listed order; and "none" on a server without handlers. */
  ghost predicate Enough(names: seq<string>, handlers: set<Method>, attempts: seq<Attempt>) {
    var valid := ValidMethods(names, handlers);
    if names == [] then exists i :: 0 <= i < |attempts| && Suffices(attempts[i], handlers)
    else if valid == [] then handlers == {} && NoneAttempt in attempts
    else exists idx :: |idx| == |valid| && Picks(valid, attempts, idx)
  }

  /** From the listed names and the handlers to the completed session. */
  lemma AuthenticatesIff(names: seq<string>, handlers: set<Method>, config: Config, attempts: seq<Attempt>)
    requires config.noClientAuth <==> handlers == {}
    requires names == [] ==> OffersEach(config.callbacks, handlers, NO_CALLBACKS)
    requires names != [] ==> config.callbacks == Chained(names, handlers, NO_CALLBACKS)
    ensures Authenticates(config, attempts) <==> Enough(names, handlers, attempts)
  {
    hide TryAll, OffersEach, Picks, ValidMethods, IsValidList, Chain, Suffices, Install;
    var valid := ValidMethods(names, handlers);
    if names == [] {
      AnyMethodSuffices(config.callbacks, handlers, attempts);
    } else if valid == [] {
      EmptyListSession(handlers, attempts);
    } else {
      ValidMethodsIs(names, handlers);
      ChainOpens(names, handlers, valid);
      CompletesIffAllInOrder(valid, attempts);
    }
  }

  lemma NoHandler(handlers: set<Method>)
    requires Password !in handlers && PublicKey !in handlers && KeyboardInteractive !in handlers
    ensures handlers == {}
  {
    forall m
      ensures m !in handlers
    {
      match m {
        case Password =>
        case PublicKey =>
        case KeyboardInteractive =>
      }
    }
  }

  /** The session of a server whose own configuration sets nothing. */
  function Opening(callbacks: Callbacks, handlers: set<Method>): Session { Waiting(callbacks, handlers == {}) }

  /** The session of a server with a chain, which has a handler. */
  function ChainOpening(valid: seq<Method>): Session
    requires valid != []
  {
    Waiting(Only(Chain(valid, 0)), false)
  }

  lemma ChainOpens(names: seq<string>, handlers: set<Method>, valid: seq<Method>)
    requires IsValidList(names, handlers, valid) && valid != []
    ensures Opening(Install(NO_CALLBACKS, Chain(valid, 0)), handlers) == ChainOpening(valid)
  {
    assert valid[0] in handlers;
  }

  /** How far the attempts get through the list. */
  function Progress(valid: seq<Method>, attempts: seq<Attempt>): (p: nat)
    ensures p <= |valid|
  {
    if attempts == [] then 0
    else
      var p := Progress(valid, attempts[..|attempts| - 1]);
      if p < |valid| && attempts[|attempts| - 1] == Attempt(valid[p], true) then p + 1 else p
  }

  /** The session after any attempts: done, or offering the next method alone. */
  lemma {:induction false} SessionIsProgress(valid: seq<Method>, attempts: seq<Attempt>)
    requires valid != []
    ensures var p := Progress(valid, attempts);
            TryAll(ChainOpening(valid), attempts) ==
            if p == |valid| then Authenticated else Waiting(Only(Chain(valid, p)), false)
  {
    if attempts != [] {
      SessionIsProgress(valid, attempts[..|attempts| - 1]);
    }
  }

  /** idx picks accepted attempts for the listed methods, in listed order. */
  ghost predicate Picks(valid: seq<Method>, attempts: seq<Attempt>, idx: seq<nat>) {
    && (forall j :: 0 <= j < |idx| ==> idx[j] < |attempts|)
    && (forall i, j :: 0 <= i < j < |idx| ==> idx[i] < idx[j])
    && |idx| <= |valid|
    && (forall j :: 0 <= j < |idx| ==> attempts[idx[j]] == Attempt(valid[j], true))
  }

  /** Progress is the longest prefix of the list that succeeded in order. */
  lemma {:induction false} ProgressWitness(valid: seq<Method>, attempts: seq<Attempt>) returns (idx: seq<nat>)
    ensures |idx| == Progress(valid, attempts) && Picks(valid, attempts, idx)
  {
    if attempts == [] {
      idx := [];
    } else {
      var n := |attempts| - 1;
      var init := attempts[..n];
      idx := ProgressWitness(valid, init);
      assert forall j :: 0 <= j < |idx| ==> attempts[idx[j]] == init[idx[j]];
      if |idx| < |valid| && attempts[n] == Attempt(valid[|idx|], true) {
        idx := idx + [n];
      }
    }
  }

  lemma PicksShorter(valid: seq<Method>, attempts: seq<Attempt>, idx: seq<nat>, n: nat)
    requires Picks(valid, attempts, idx) && n <= |attempts|
    requires idx != [] ==> idx[|idx| - 1] < n
    ensures Picks(valid, attempts[..n], idx)
  {
    forall j | 0 <= j < |idx|
      ensures idx[j] < n
    {
      assert j < |idx| - 1 ==> idx[j] < idx[|idx| - 1];
    }
  }

  lemma {:induction false} ProgressIsLongest(valid: seq<Method>, attempts: seq<Attempt>, idx: seq<nat>)
    requires Picks(valid, attempts, idx)
    ensures |idx| <= Progress(valid, attempts)
    decreases |attempts|
  {
    if idx != [] {
      var n, k := |attempts| - 1, |idx| - 1;
      assert idx[k] <= n && attempts[idx[k]] == Attempt(valid[k], true);
      if idx[k] == n {
        var front := idx[..k];
        assert Picks(valid, attempts, front);
        assert k > 0 ==> front[k - 1] < idx[k];
        PicksShorter(valid, attempts, front, n);
        ProgressIsLongest(valid, attempts[..n], front);
      } else {
        PicksShorter(valid, attempts, idx, n);
        ProgressIsLongest(valid, attempts[..n], idx);
      }
    }
  }

  /** Authentication completes exactly when every listed method has been
      accepted, in the listed order. */
  lemma CompletesIffAllInOrder(valid: seq<Method>, attempts: seq<Attempt>)
    requires valid != []
    ensures TryAll(ChainOpening(valid), attempts).Authenticated? <==>
            exists idx :: |idx| == |valid| && Picks(valid, attempts, idx)
  {
    SessionIsProgress(valid, attempts);
    var idx := ProgressWitness(valid, attempts);
    if w :| |w| == |valid| && Picks(valid, attempts, w) {
      ProgressIsLongest(valid, attempts, w);
    }
  }

  /** At any point before completion exactly the next method is offered. */
  lemma OnlyNextOffered(valid: seq<Method>, attempts: seq<Attempt>, m: Method)
    requires valid != []
    ensures var s := TryAll(ChainOpening(valid), attempts);
            s.Waiting? ==>
              var p := Progress(valid, attempts);
              p < |valid| && (Offered(s.offered, m).Some? <==> m == valid[p])
  {
    SessionIsProgress(valid, attempts);
  }

  /** Without a valid method only "none" can succeed, and that only on a server
      without any handler. */
  lemma {:induction false} EmptyListSession(handlers: set<Method>, attempts: seq<Attempt>)
    ensures TryAll(Opening(NO_CALLBACKS, handlers), attempts) ==
            if handlers == {} && NoneAttempt in attempts then Authenticated else Opening(NO_CALLBACKS, handlers)
  {
    if attempts != [] {
      var n := |attempts| - 1;
      EmptyListSession(handlers, attempts[..n]);
      assert attempts == attempts[..n] + [attempts[n]];
    }
  }

  /** With an empty valid list a session can authenticate exactly if the server
      has no handler at all. */
  lemma EmptyListAuthenticatesIff(names: seq<string>, handlers: set<Method>)
    requires IsValidList(names, handlers, [])
    ensures (exists attempts :: TryAll(Opening(NO_CALLBACKS, handlers), attempts).Authenticated?) <==> handlers == {}
  {
    EmptyListSession(handlers, [NoneAttempt]);
    forall attempts
      ensures TryAll(Opening(NO_CALLBACKS, handlers), attempts).Authenticated? ==> handlers == {}
    {
      EmptyListSession(handlers, attempts);
    }
  }

  /** The attempt is enough for a server without a chain. */
  predicate Suffices(a: Attempt, handlers: set<Method>) {
    if a.NoneAttempt? then handlers == {} else a.accepted && a.m in handlers
  }

  /** Without a list of methods any one accepted attempt is enough. */
  lemma {:induction false} AnyMethodSuffices(callbacks: Callbacks, handlers: set<Method>, attempts: seq<Attempt>)
    requires OffersEach(callbacks, handlers, NO_CALLBACKS)
    ensures TryAll(Opening(callbacks, handlers), attempts) ==
            if exists i :: 0 <= i < |attempts| && Suffices(attempts[i], handlers) then Authenticated
            else Opening(callbacks, handlers)
  {
    if attempts != [] {
      var n := |attempts| - 1;
      AnyMethodSuffices(callbacks, handlers, attempts[..n]);
      assert forall i :: 0 <= i < n ==> attempts[..n][i] == attempts[i];
      assert attempts[n].Attempt? ==>
        Offered(callbacks, attempts[n].m) == if attempts[n].m in handlers then Some(Callback(attempts[n].m, Nil)) else None;
    }
  }

  // The method names

  lemma OneName(name: string, handlers: set<Method>)
    ensures ValidMethods([name], handlers) ==
            if MethodOf(name).Some? && MethodOf(name).value in handlers then [MethodOf(name).value] else []
  {
    assert [name][..0] == [];
    assert ValidMethods([], handlers) == [];
  }

  /** Each of the three names asks for its own method, and any other for none. */
  lemma MethodNames(handlers: set<Method>, name: string)
    ensures Password in handlers ==> ValidMethods(["password"], handlers) == [Password]
    ensures PublicKey in handlers ==> ValidMethods(["publickey"], handlers) == [PublicKey]
    ensures KeyboardInteractive in handlers ==> ValidMethods(["keyboard-interactive"], handlers) == [KeyboardInteractive]
    ensures name !in ["password", "publickey", "keyboard-interactive"] ==> ValidMethods([name], handlers) == []
  {
    hide ValidMethods;
    OneName("password", handlers);
    OneName("publickey", handlers);
    OneName("keyboard-interactive", handlers);
    OneName(name, handlers);
  }

  /** A server that lists "publickey" lets in who has an accepted key, and nobody for
      a password alone. */
  lemma OnlyKeysCount(handlers: set<Method>, attempts: seq<Attempt>)
    requires PublicKey in handlers
    ensures Enough(["publickey"], handlers, attempts) <==> Attempt(PublicKey, true) in attempts
  {
    hide ValidMethods;
    MethodNames(handlers, "");
    var valid := [PublicKey];
    if Attempt(PublicKey, true) in attempts {
      var i :| 0 <= i < |attempts| && attempts[i] == Attempt(PublicKey, true);
      assert Picks(valid, attempts, [i]);
      assert |[i]| == |valid|;
    }
    if idx :| |idx| == |valid| && Picks(valid, attempts, idx) {
      assert attempts[idx[0]] == Attempt(valid[0], true);
    }
  }
}
