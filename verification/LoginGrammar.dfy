/** The login string as people write it: every optional part may be left out, and
    has its default then. */
module LoginGrammar {
  import opened Machine
  import opened Strings
  import opened LoginUser
  import opened LoginRoundTrip

  // Replacing one occurrence

  lemma {:induction false} ReplaceOnce(a: string, old_: string, new_: string, b: string)
    requires old_ != [] && old_[0] !in a && old_[0] !in b
    ensures ReplaceAll(a + old_ + b, old_, new_) == a + new_ + b
    decreases |a|
  {
    var s := a + old_ + b;
    if a == [] {
      assert s[..|old_|] == old_ && s[|old_|..] == b;
      ReplaceNothing(b, old_, new_);
    } else {
      assert s[0] == a[0] && s[1..] == a[1..] + old_ + b;
      assert s[..|old_|][0] == a[0];
      ReplaceOnce(a[1..], old_, new_, b);
      assert [a[0]] + (a[1..] + new_ + b) == a + new_ + b;
    }
  }

  lemma {:induction false} SkipDoubleEncoded(a: string, b: string)
    requires '%' !in a && '%' !in b
    ensures ReplaceAll(a + "%2540" + b, "%40", "@") == a + "%2540" + b
    decreases |a|
  {
    var s := a + "%2540" + b;
    if a == [] {
      assert s[0] == '%' && s[1..] == "2540" + b;
      assert s[..3][1] == '2';
      ReplaceNothing("2540" + b, "%40", "@");
    } else {
      assert s[0] == a[0] && s[1..] == a[1..] + "%2540" + b;
      assert s[..3][0] == a[0];
      SkipDoubleEncoded(a[1..], b);
    }
  }

  /** How the '@' after the instance user may be written. */
  predicate IsAt(at: string) { at == "@" || at == "%40" || at == "%2540" }

  lemma Decoded(a: string, at: string, b: string)
    requires '%' !in a && '%' !in b && IsAt(at)
    ensures ReplaceAll(ReplaceAll(a + at + b, "%40", "@"), "%2540", "@") == a + "@" + b
  {
    hide ReplaceAll;
    if at == "@" {
      ReplaceNothing(a + "@" + b, "%40", "@");
      ReplaceNothing(a + "@" + b, "%2540", "@");
    } else if at == "%40" {
      ReplaceOnce(a, "%40", "@", b);
      ReplaceNothing(a + "@" + b, "%2540", "@");
    } else {
      SkipDoubleEncoded(a, b);
      ReplaceOnce(a, "%2540", "@", b);
    }
  }

  // The parts

  function After(separator: string, part: Option<string>): string { if part.None? then "" else separator + part.value }

  function Before(part: Option<string>, separator: string): string { if part.None? then "" else part.value + separator }

  function Or(part: Option<string>, default: string): string { if part.None? then default else part.value }

  predicate Free(part: Option<string>) { part.Some? ==> DelimFree(part.value) }

  lemma InstancePart(lu: LoginUser, instance: string, project: Option<string>)
    requires DelimFree(instance) && Free(project) && lu.project == "default"
    ensures ParseInstanceAndProject(lu, instance + After(".", project)) ==
            lu.(instance := instance, project := if project == Some("") then "default" else Or(project, "default"))
  {
    hide Cut;
    if project.None? {
      assert instance + "" == instance;
      CutNowhere(instance, '.');
    } else {
      assert instance + ("." + project.value) == instance + ['.'] + project.value;
      CutAt(instance, '.', project.value);
    }
  }

  lemma UserPart(lu: LoginUser, iu: Option<string>, at: string, instance: string, project: Option<string>)
    requires Free(iu) && DelimFree(instance) && Free(project) && lu.project == "default" && IsAt(at)
    ensures ParseInstanceAndUser(lu, Before(iu, at) + (instance + After(".", project))) ==
            lu.(instanceUser := Or(iu, lu.instanceUser), instance := instance,
                project := if project == Some("") then "default" else Or(project, "default"))
  {
    hide Cut, ReplaceAll, ParseInstanceAndProject;
    var rest := instance + After(".", project);
    if iu.None? {
      assert Before(iu, at) + rest == rest;
      ReplaceNothing(rest, "%40", "@");
      ReplaceNothing(rest, "%2540", "@");
      CutNowhere(rest, '@');
      InstancePart(lu, instance, project);
      assert lu.(instanceUser := Or(iu, lu.instanceUser)) == lu;
    } else {
      assert Before(iu, at) + rest == iu.value + at + rest;
      Decoded(iu.value, at, rest);
      assert iu.value + "@" + rest == iu.value + ['@'] + rest;
      CutAt(iu.value, '@', rest);
      InstancePart(lu.(instanceUser := iu.value), instance, project);
    }
  }

  lemma RemotePart(lu: LoginUser, remote: Option<string>, rest: string)
    requires Free(remote) && ':' !in rest && lu.remote == ""
    ensures ParseRemoteAndInstance(lu, Before(remote, ":") + rest) ==
            ParseInstanceAndUser(lu.(remote := Or(remote, "")), rest)
  {
    hide Cut, ParseInstanceAndUser;
    if remote.None? {
      assert Before(remote, ":") + rest == rest;
      CutNowhere(rest, ':');
      assert lu.(remote := "") == lu;
    } else {
      assert Before(remote, ":") + rest == remote.value + [':'] + rest;
      CutAt(remote.value, ':', rest);
    }
  }

  /** A session login as written: [%][remote:][user@]instance[.project], then
      nothing, ~host or +host. */
  datatype Written = Written(
    persistent: bool, remote: Option<string>, user: Option<string>, at: string,
    instance: string, project: Option<string>, separator: char, host: Option<string>)

  function Middle(w: Written): string { Before(w.user, w.at) + (w.instance + After(".", w.project)) }

  function Core(w: Written): string { Before(w.remote, ":") + Middle(w) }

  function Text(w: Written): string {
    (if w.persistent then "%" else "") + Core(w) + After([w.separator], w.host)
  }

  /** Names are free of delimiters. */
  predicate NamesOk(w: Written) {
    Free(w.remote) && Free(w.user) && DelimFree(w.instance) && Free(w.project) && IsAt(w.at)
  }

  /** Moreover the host user after a '+' is free of tildes, and the text does not
      begin like one of another kind. */
  predicate Readable(w: Written) {
    && NamesOk(w)
    && (w.separator == '~' || (w.separator == '+' && (w.host.Some? ==> '~' !in w.host.value)))
    && (!w.persistent && Core(w) == "" ==> w.host.None?)
    && (!w.persistent && w.remote.None? && w.user == Some("") ==> w.at == "@")
  }

  lemma CoreChars(w: Written)
    requires NamesOk(w)
    ensures '~' !in Core(w) && '+' !in Core(w) && '/' !in Core(w) && ':' !in Middle(w)
  {}

  lemma CoreStart(w: Written)
    requires Readable(w) && !w.persistent && Core(w) != ""
    ensures Core(w)[0] != '%'
  {}

  lemma CorePart(lu: LoginUser, w: Written)
    requires NamesOk(w) && lu.remote == "" && lu.project == "default"
    ensures ParseRemoteAndInstance(lu, Core(w)) ==
            lu.(remote := Or(w.remote, ""), instanceUser := Or(w.user, lu.instanceUser), instance := w.instance,
                project := if w.project == Some("") then "default" else Or(w.project, "default"))
  {
    hide ParseInstanceAndUser, ParseRemoteAndInstance;
    CoreChars(w);
    RemotePart(lu, w.remote, Middle(w));
    UserPart(lu.(remote := Or(w.remote, "")), w.user, w.at, w.instance, w.project);
  }

  /** The host user after the core, found at '~' or else at '+'. */
  lemma HostPart(w: Written, t: string)
    requires Readable(w) && t == Core(w) + After([w.separator], w.host)
    ensures var tilde, plus := Cut(t, '~'), Cut(t, '+');
            && (w.host.None? ==> !tilde.found && !plus.found && t == Core(w))
            && (w.host.Some? && w.separator == '~' ==> tilde == Cutting(Core(w), w.host.value, true))
            && (w.host.Some? && w.separator == '+' ==> !tilde.found && plus == Cutting(Core(w), w.host.value, true))
  {
    hide Cut, Core;
    CoreChars(w);
    if w.host.None? {
      assert t == Core(w);
      CutNowhere(t, '~');
      CutNowhere(t, '+');
    } else {
      assert t == Core(w) + [w.separator] + w.host.value;
      CutAt(Core(w), w.separator, w.host.value);
      if w.separator == '+' {
        CutNowhere(t, '~');
      }
    }
  }

  /** Every session login: the parts that are written come out as they are, and the
      others as no remote, instance user "root", project "default" and the owner of
      the server as host user. */
  lemma SessionWritten(w: Written, owner: string)
    requires Readable(w)
    ensures Parse(EMPTY, Text(w), owner) ==
            EMPTY.(origUser := Text(w), persistent := w.persistent, remote := Or(w.remote, ""),
                   instanceUser := Or(w.user, "root"), instance := w.instance,
                   project := if w.project == Some("") then "default" else Or(w.project, "default"),
                   user := Or(w.host, owner))
  {
    hide Core, ParseRemoteAndInstance, ParseCreation, ParseCommand, Cut;
    var s, t := Text(w), Core(w) + After([w.separator], w.host);
    var base := SetDefaults(EMPTY, owner).(origUser := s);
    TextStart(w);
    HostPart(w, t);
    var lu := if w.persistent then base.(persistent := true) else base;
    CorePart(lu, w);
    CorePart(lu.(user := Or(w.host, owner)), w);
    assert Parse(EMPTY, s, owner) == ParseSession(base, s);
  }

  /** The text begins neither like a creation login nor like a command. */
  lemma TextStart(w: Written)
    requires Readable(w)
    ensures var s, t := Text(w), Core(w) + After([w.separator], w.host);
            && !IsCreationFormat(s) && !(s != "" && s[0] == '/')
            && (w.persistent ==> s != "" && s[0] == '%' && s[1..] == t)
            && (!w.persistent ==> s == t && !(s != "" && s[0] == '%'))
  {
    hide Core;
    CoreChars(w);
    var s, t := Text(w), Core(w) + After([w.separator], w.host);
    if w.persistent {
      assert s == ['%'] + t;
    } else {
      assert s == t;
      if Core(w) != "" {
        CoreStart(w);
        assert s[0] == Core(w)[0] && Core(w)[0] in Core(w);
      }
    }
  }

  /** A bare name is an instance of the default project. */
  lemma BareInstance(instance: string, owner: string)
    requires DelimFree(instance)
    ensures Parse(EMPTY, instance, owner) ==
            EMPTY.(origUser := instance, instance := instance, instanceUser := "root", project := "default", user := owner)
  {
    hide Parse;
    var w := Written(false, None, None, "@", instance, None, '~', None);
    assert Text(w) == instance;
    SessionWritten(w, owner);
  }

  // Creation logins

  /** The options as written, each after a plus sign. */
  function Options(os: seq<string>): string { if os == [] then "" else "+" + Join(os, '+') }

  /** Every creation login: '+', or '~' for an ephemeral instance, then the same
      names as a session, the options in order, and the host user. */
  lemma CreationWritten(ephemeral: bool, w: Written, os: seq<string>, owner: string)
    requires NamesOk(w)
    requires forall i :: 0 <= i < |os| ==> '+' !in os[i] && '~' !in os[i]
    ensures var text := (if ephemeral then "~" else "+") + Core(w) + Options(os) + After("~", w.host);
            Parse(EMPTY, text, owner) ==
            EMPTY.(origUser := text, createInstance := true, remote := Or(w.remote, ""),
                   instanceUser := Or(w.user, "root"), instance := w.instance,
                   project := if w.project == Some("") then "default" else Or(w.project, "default"),
                   user := Or(w.host, owner),
                   config := ParseOptions(NO_CONFIG.(ephemeral := if ephemeral then Some(true) else None), os))
  {
    hide Core, ParseRemoteAndInstance, ParseSession, ParseCommand, Cut, ParseCreateConfig, Join, ParseOptions;
    var flag := if ephemeral then '~' else '+';
    var conf := Core(w) + Options(os);
    var text := (if ephemeral then "~" else "+") + Core(w) + Options(os) + After("~", w.host);
    assert HostSuffix(w.host) == After("~", w.host);
    assert text == [flag] + (conf + HostSuffix(w.host));
    assert text[0] == flag && text[1..] == conf + HostSuffix(w.host);
    CoreChars(w);
    OptionsCut(Core(w), os);
    HostCut(conf, w.host);
    var config := NO_CONFIG.(ephemeral := if ephemeral then Some(true) else None);
    var base := SetDefaults(EMPTY, owner).(origUser := text, createInstance := true, config := config, user := Or(w.host, owner));
    CorePart(base, w);
    OptionsParsed(config, os);
    assert NO_CONFIG.(ephemeral := None) == NO_CONFIG;
  }

  lemma OptionsCut(core: string, os: seq<string>)
    requires '+' !in core && '~' !in core && forall i :: 0 <= i < |os| ==> '+' !in os[i] && '~' !in os[i]
    ensures '~' !in core + Options(os)
    ensures Cut(core + Options(os), '+').before == core
    ensures Cut(core + Options(os), '+').after == (if os == [] then "" else Join(os, '+'))
  {
    hide Cut, Join;
    if os == [] {
      assert core + "" == core;
      CutNowhere(core, '+');
    } else {
      NotInJoin(os, '+', '~');
      assert core + ("+" + Join(os, '+')) == core + ['+'] + Join(os, '+');
      CutAt(core, '+', Join(os, '+'));
    }
  }

  lemma OptionsParsed(c: CreateConfig, os: seq<string>)
    requires forall i :: 0 <= i < |os| ==> '+' !in os[i]
    ensures ParseCreateConfig(c, if os == [] then "" else Join(os, '+')) == ParseOptions(c, os)
  {
    hide SplitOn, ParseOption;
    if os != [] {
      SplitJoin(os, '+');
      if Join(os, '+') == "" {
        assert SplitOn("", '+') == [""] by {
          SplitSingle("", '+');
        }
        assert os == [""];
        OneOption(c);
      }
    }
  }

  lemma OneOption(c: CreateConfig)
    ensures ParseOptions(c, [""]) == c
  {
    assert ParseOption(c, "") == c;
    assert [""][1..] == [];
  }

  /** The flags in their long and short forms. */
  lemma FlagOptions(c: CreateConfig, tail: string)
    requires '/' !in tail
    ensures ParseOption(c, "n") == c.(nesting := Some(true)) == ParseOption(c, "nest" + tail)
    ensures ParseOption(c, "p") == c.(privileged := Some(true)) == ParseOption(c, "priv" + tail)
    ensures ParseOption(c, "e") == c.(ephemeral := Some(true)) == ParseOption(c, "ephe" + tail)
    ensures ParseOption(c, "v") == c.(vm := Some(true)) == ParseOption(c, "vm")
  {
    assert HasPrefix("nest" + tail, "nest") && HasPrefix("priv" + tail, "priv") && HasPrefix("ephe" + tail, "ephe");
    assert ("nest" + tail)[0] == 'n' && ("priv" + tail)[0] == 'p' && ("ephe" + tail)[0] == 'e';
  }

  /** Memory, processors and disk with their numbers. */
  lemma NumberOptions(c: CreateConfig, n: int)
    requires -MAX_INT64 - 1 <= n <= MAX_INT64
    ensures ParseOption(c, "m" + Itoa(n)) == c.(memory := Some(n))
    ensures ParseOption(c, "c" + Itoa(n)) == c.(cpu := Some(n))
    ensures ParseOption(c, "d" + Itoa(n)) == c.(disk := Some(n))
  {
    hide Itoa, Atoi;
    AtoiReadsItoa(n);
    ItoaChars(n, '/');
    assert ("m" + Itoa(n))[1..] == Itoa(n) && ("c" + Itoa(n))[1..] == Itoa(n) && ("d" + Itoa(n))[1..] == Itoa(n);
  }

  /** A number that cannot be read changes nothing. */
  lemma UnreadableNumber(c: CreateConfig, t: string)
    requires '/' !in t && Atoi(t).None?
    ensures ParseOption(c, "m" + t) == c && ParseOption(c, "c" + t) == c && ParseOption(c, "d" + t) == c
  {
    hide Atoi;
    assert ("m" + t)[1..] == t && ("c" + t)[1..] == t && ("d" + t)[1..] == t;
  }

  /** Nor does an option of no known kind. */
  lemma UnknownOption(c: CreateConfig, t: string)
    requires '/' !in t
    requires t == "" || (t[0] != '%' && t[0] != 'm' && t[0] != 'c' && t[0] != 'd'
                         && t[0] != 'n' && t[0] != 'p' && t[0] != 'e' && t[0] != 'v')
    ensures ParseOption(c, t) == c
  {}

  /** An image has a slash, and profiles follow a percent sign, one or several. */
  lemma TextOptions(c: CreateConfig, o: string, ps: seq<string>)
    requires ps != [] && forall i :: 0 <= i < |ps| ==> ',' !in ps[i]
    ensures '/' in o && o[0] != '%' ==> ParseOption(c, o) == c.(image := Some(o))
    ensures ParseOption(c, "%" + Join(ps, ',')) == c.(profiles := c.profiles + ps)
  {
    hide SplitOn;
    SplitJoin(ps, ',');
    assert ("%" + Join(ps, ','))[1..] == Join(ps, ',');
  }

  // Commands

  /** A command alone, and one with a target: explain and the four names of remove
      parse their target as a login of its own. */
  lemma CommandWritten(name: string, target: string, owner: string)
    requires '/' !in name
    ensures var p := Parse(EMPTY, "/" + name, owner);
            p == EMPTY.(origUser := "/" + name, command := name, user := owner)
    ensures var p := Parse(EMPTY, "/" + name + "/" + target, owner);
            var base := EMPTY.(origUser := "/" + name + "/" + target, user := owner);
            var inner := Some(Parse(EMPTY, target, owner));
            p == if name == "explain" then base.(command := "explain", explainUser := inner)
                 else if name == "rm" || name == "remove" then base.(command := "remove", removeUser := inner)
                 else if name == "rm-f" || name == "remove-force" then
                   base.(command := "remove", removeUser := inner, forceRemove := true)
                 else base.(command := name)
  {
    hide Cut, ParseCreation, ParseSession;
    var s, t := "/" + name, "/" + name + "/" + target;
    assert s[0] == '/' && s[1..] == name && t[0] == '/' && t[1..] == name + ['/'] + target;
    CutNowhere(name, '/');
    CutAt(name, '/', target);
    assert Parse(EMPTY, s, owner) == ParseCommand(SetDefaults(EMPTY, owner).(origUser := s), name, owner);
    assert Parse(EMPTY, t, owner) == ParseCommand(SetDefaults(EMPTY, owner).(origUser := t), t[1..], owner);
  }

  // The printer

  /** The parts of the options, in the order in which they are printed. */
  lemma PrintedParts(c: CreateConfig, image: string, profile: string, m: int, n: int, d: int)
    requires c.image == Some(image) && c.profiles == [profile] && c.memory == Some(m) && c.cpu == Some(n) && c.disk == Some(d)
    requires c.nesting == Some(true) && c.privileged == Some(true) && c.vm == Some(true)
    ensures ValueParts(c) == [image, "%" + profile, "m" + Itoa(m), "c" + Itoa(n), "d" + Itoa(d)]
    ensures FlagParts(c) == ["nest", "priv", "vm"]
  {
    hide Itoa;
    assert c.profiles[1..] == [];
    assert PrintProfiles(c.profiles) == ["%" + profile];
  }

  /** A session login as it is printed. */
  lemma PrintedSession(lu: LoginUser)
    requires !lu.createInstance && lu.command == ""
    ensures Print(lu) ==
            (if lu.remote == "" then "" else lu.remote + ":") + (if lu.persistent then "%" else "")
            + lu.instanceUser + "@" + lu.instance + "." + lu.project + "~" + lu.user
  {}

  /** Commands as they are printed. */
  lemma PrintedCommand(lu: LoginUser, inner: LoginUser)
    requires !lu.createInstance
    ensures lu.command == "explain" && lu.explainUser == Some(inner) ==> Print(lu) == "/explain/" + Print(inner)
    ensures lu.command == "remove" && lu.removeUser == Some(inner) ==>
              Print(lu) == (if lu.forceRemove then "/remove-force/" else "/remove/") + Print(inner)
  {
    PrintCommand(lu);
    assert "/" + "explain" + "/" == "/explain/" && "/" + "remove" + "/" == "/remove/";
    assert "/" + "remove-force" + "/" == "/remove-force/";
  }

  /** A creation login as it is printed. */
  lemma PrintedCreation(lu: LoginUser)
    requires lu.createInstance
    ensures Print(lu) ==
            (if lu.config.ephemeral == Some(true) then "~" else "+")
            + (if lu.remote == "" then "" else lu.remote + ":") + lu.instance + "." + lu.project
            + Options(ValueParts(lu.config) + FlagParts(lu.config))
  {
    hide ValueParts, FlagParts, Join;
    OptionsAsText(lu.config);
  }

  lemma OptionsAsText(c: CreateConfig)
    ensures PrintOptions(c) == Options(ValueParts(c) + FlagParts(c))
  {
    hide ValueParts, FlagParts, Join;
    var v, f := ValueParts(c), FlagParts(c);
    if v != [] {
      JoinStart(v);
    }
    if f != [] {
      JoinStart(f);
    }
    if v != [] && f != [] {
      JoinAppend(v, f, '+');
      assert ("+" + Join(v, '+')) + ("+" + Join(f, '+')) == "+" + (Join(v, '+') + ['+'] + Join(f, '+'));
    } else {
      assert v + f == if v == [] then f else v;
      assert v == [] ==> PrintOptions(c) == "" + (if f == [] then "" else Join([""] + f, '+'));
    }
  }

  lemma JoinStart(parts: seq<string>)
    requires parts != []
    ensures Join([""] + parts, '+') == "+" + Join(parts, '+')
  {
    assert ([""] + parts)[0] == "" && ([""] + parts)[1..] == parts;
    assert "" + ['+'] + Join(parts, '+') == "+" + Join(parts, '+');
  }
}
