/** Which login strings survive printing and parsing. */
module LoginRoundTrip {
  import opened Machine
  import opened Strings
  import opened LoginUser

  /** s contains none of the characters that structure a login string. */
  predicate DelimFree(s: string) {
    && ':' !in s && '@' !in s && '.' !in s && '+' !in s && '~' !in s && '/' !in s && '%' !in s && ',' !in s
  }

  predicate ImageOk(i: string) { '/' in i && '+' !in i && '~' !in i && i[0] != '%' }

  predicate ProfileOk(p: string) { '+' !in p && '~' !in p && ',' !in p }

  predicate NumberOk(n: Option<int>) { n.Some? ==> -MAX_INT64 - 1 <= n.value <= MAX_INT64 }

  predicate ConfigOk(c: CreateConfig) {
    && (c.image.Some? ==> ImageOk(c.image.value))
    && (forall i :: 0 <= i < |c.profiles| ==> ProfileOk(c.profiles[i]))
    && NumberOk(c.memory) && NumberOk(c.cpu) && NumberOk(c.disk)
  }

  /** The shapes the printer can be asked for, with delimiter-free names. */
  predicate WellFormed(lu: LoginUser) {
    if lu.createInstance then
      DelimFree(lu.remote) && DelimFree(lu.instance) && DelimFree(lu.project) && ConfigOk(lu.config)
    else if lu.command == "explain" && lu.explainUser.Some? then WellFormed(lu.explainUser.value)
    else if lu.command == "remove" && lu.removeUser.Some? then WellFormed(lu.removeUser.value)
    else if lu.command != "" then DelimFree(lu.command)
    else DelimFree(lu.remote) && DelimFree(lu.instanceUser) && DelimFree(lu.instance) && DelimFree(lu.project)
  }

  predicate SameFlags(a: CreateConfig, b: CreateConfig) {
    On(a.ephemeral) == On(b.ephemeral) && On(a.nesting) == On(b.nesting)
    && On(a.privileged) == On(b.privileged) && On(a.vm) == On(b.vm)
  }

  /** p has every field that the printer shows of lu; a flag that is unset
      counts as false. */
  predicate Recovered(p: LoginUser, lu: LoginUser)
    decreases lu
  {
    if lu.createInstance then
      && p.createInstance && p.remote == lu.remote && p.instance == lu.instance && p.project == lu.project
      && p.config.image == lu.config.image && p.config.profiles == lu.config.profiles
      && p.config.memory == lu.config.memory && p.config.cpu == lu.config.cpu && p.config.disk == lu.config.disk
      && SameFlags(p.config, lu.config)
    else if lu.command == "explain" && lu.explainUser.Some? then
      && !p.createInstance && p.command == "explain" && p.explainUser.Some?
      && Recovered(p.explainUser.value, lu.explainUser.value)
    else if lu.command == "remove" && lu.removeUser.Some? then
      && !p.createInstance && p.command == "remove" && p.removeUser.Some? && p.forceRemove == lu.forceRemove
      && Recovered(p.removeUser.value, lu.removeUser.value)
    else
      && !p.createInstance && p.command == lu.command && p.user == lu.user
      && (lu.command == "" ==>
            p.remote == lu.remote && p.persistent == lu.persistent && p.instanceUser == lu.instanceUser
            && p.instance == lu.instance && p.project == lu.project)
  }

  /** The logins that survive: a project is named, a persistent session has no
      remote, and the only commands are explain and remove with their targets. */
  predicate Survives(lu: LoginUser) {
    if lu.createInstance then lu.project != ""
    else if lu.command == "explain" && lu.explainUser.Some? then Survives(lu.explainUser.value)
    else if lu.command == "remove" && lu.removeUser.Some? then Survives(lu.removeUser.value)
    else lu.command == "" && lu.project != "" && !(lu.persistent && lu.remote != "")
  }

  // Instance, user and remote

  function NamedProject(p: string): string { if p == "" then "default" else p }

  lemma ParseInstance(lu: LoginUser, instance: string, project: string)
    requires '.' !in instance
    ensures ParseInstanceAndProject(lu, instance + "." + project) ==
            lu.(instance := instance, project := NamedProject(project))
  {
    CutAt(instance, '.', project);
  }

  lemma NothingToDecode(s: string)
    requires '%' !in s
    ensures ReplaceAll(ReplaceAll(s, "%40", "@"), "%2540", "@") == s
  {
    ReplaceNothing(s, "%40", "@");
    ReplaceNothing(s, "%2540", "@");
  }

  lemma ParseWithUser(lu: LoginUser, iu: string, instance: string, project: string)
    requires DelimFree(iu) && DelimFree(instance) && DelimFree(project)
    ensures ParseInstanceAndUser(lu, iu + "@" + instance + "." + project) ==
            lu.(instanceUser := iu, instance := instance, project := NamedProject(project))
  {
    hide ReplaceAll, Cut, ParseInstanceAndProject;
    var rest := instance + "." + project;
    var s := iu + "@" + instance + "." + project;
    assert s == iu + ['@'] + rest;
    NothingToDecode(s);
    CutAt(iu, '@', rest);
    ParseInstance(lu.(instanceUser := iu), instance, project);
  }

  lemma ParseWithoutUser(lu: LoginUser, instance: string, project: string)
    requires DelimFree(instance) && DelimFree(project)
    ensures ParseInstanceAndUser(lu, instance + "." + project) ==
            lu.(instance := instance, project := NamedProject(project))
  {
    hide ReplaceAll, Cut, ParseInstanceAndProject;
    var s := instance + "." + project;
    NothingToDecode(s);
    CutNowhere(s, '@');
    ParseInstance(lu, instance, project);
  }

  /** A printed remote is taken off again; no remote leaves the field empty. */
  lemma ParsePrintedRemote(lu: LoginUser, of: LoginUser, rest: string)
    requires DelimFree(of.remote) && ':' !in rest && lu.remote == ""
    ensures ParseRemoteAndInstance(lu, PrintRemote(of) + rest) ==
            ParseInstanceAndUser(lu.(remote := of.remote), rest)
  {
    hide ParseInstanceAndUser, Cut;
    if of.remote == "" {
      assert PrintRemote(of) + rest == rest;
      CutNowhere(rest, ':');
      assert lu.(remote := of.remote) == lu;
    } else {
      assert PrintRemote(of) + rest == of.remote + [':'] + rest;
      CutAt(of.remote, ':', rest);
    }
  }

  // Sessions

  function SessionCore(lu: LoginUser): string {
    lu.instanceUser + "@" + lu.instance + "." + lu.project
  }

  lemma SessionShape(lu: LoginUser)
    requires WellFormed(lu) && !lu.createInstance && lu.command == ""
    ensures ':' !in SessionCore(lu) && '~' !in PrintRemote(lu) + SessionCore(lu)
    ensures var s := PrintRemote(lu) + SessionCore(lu);
            s != "" && s[0] != '+' && s[0] != '~' && s[0] != '/' && s[0] != '%'
  {
    var s := PrintRemote(lu) + SessionCore(lu);
    assert s[0] in PrintRemote(lu) + lu.instanceUser + "@" by {
      assert s == PrintRemote(lu) + lu.instanceUser + "@" + (lu.instance + "." + lu.project);
    }
  }

  lemma SessionParsed(lu: LoginUser, base: LoginUser)
    requires WellFormed(lu) && !lu.createInstance && lu.command == "" && base.remote == ""
    ensures ParseRemoteAndInstance(base, PrintRemote(lu) + SessionCore(lu)) ==
            base.(remote := lu.remote, instanceUser := lu.instanceUser, instance := lu.instance,
                  project := NamedProject(lu.project))
  {
    hide ParseRemoteAndInstance, ParseInstanceAndUser;
    SessionShape(lu);
    ParsePrintedRemote(base, lu, SessionCore(lu));
    ParseWithUser(base.(remote := lu.remote), lu.instanceUser, lu.instance, lu.project);
  }

  lemma SessionTail(lu: LoginUser, lu1: LoginUser, t: string)
    requires WellFormed(lu) && !lu.createInstance && lu.command == "" && lu1.remote == ""
    requires t == PrintRemote(lu) + SessionCore(lu) + ['~'] + lu.user
    ensures Cut(t, '~').found
    ensures ParseRemoteAndInstance(lu1.(user := Cut(t, '~').after), Cut(t, '~').before) ==
            lu1.(user := lu.user, remote := lu.remote, instanceUser := lu.instanceUser, instance := lu.instance,
                 project := NamedProject(lu.project))
  {
    hide ParseRemoteAndInstance;
    SessionShape(lu);
    CutAt(PrintRemote(lu) + SessionCore(lu), '~', lu.user);
    SessionParsed(lu, lu1.(user := lu.user));
  }

  lemma PersistentSession(lu: LoginUser, base: LoginUser, t: string)
    requires WellFormed(lu) && !lu.createInstance && lu.command == "" && base.remote == ""
    requires t == PrintRemote(lu) + SessionCore(lu) + ['~'] + lu.user
    ensures ParseSession(base, ['%'] + t) ==
            base.(persistent := true, user := lu.user, remote := lu.remote, instanceUser := lu.instanceUser,
                  instance := lu.instance, project := NamedProject(lu.project))
  {
    hide ParseRemoteAndInstance, Cut, NamedProject, SessionCore;
    assert (['%'] + t)[1..] == t;
    SessionTail(lu, base.(persistent := true), t);
  }

  lemma PlainSession(lu: LoginUser, base: LoginUser, t: string)
    requires WellFormed(lu) && !lu.createInstance && lu.command == "" && base.remote == ""
    requires t == PrintRemote(lu) + SessionCore(lu) + ['~'] + lu.user
    ensures t != "" && t[0] != '+' && t[0] != '~' && t[0] != '/'
    ensures ParseSession(base, t) ==
            base.(user := lu.user, remote := lu.remote, instanceUser := lu.instanceUser,
                  instance := lu.instance, project := NamedProject(lu.project))
  {
    hide ParseRemoteAndInstance, Cut, NamedProject, SessionCore;
    SessionShape(lu);
    assert t[0] == (PrintRemote(lu) + SessionCore(lu))[0];
    SessionTail(lu, base, t);
  }

  lemma PrintSession(lu: LoginUser)
    requires !lu.createInstance && lu.command == "" && !(lu.persistent && lu.remote != "")
    ensures var t := PrintRemote(lu) + SessionCore(lu) + ['~'] + lu.user;
            Print(lu) == if lu.persistent then ['%'] + t else t
  {
    hide SessionCore, Print;
    PrintAsPrefix(lu);
    if lu.persistent {
      FlagFirst(SessionCore(lu), lu.user);
    } else {
      assert PrintRemote(lu) + "" == PrintRemote(lu);
    }
  }

  lemma PrintAsPrefix(lu: LoginUser)
    requires !lu.createInstance && lu.command == ""
    ensures Print(lu) == PrintRemote(lu) + (if lu.persistent then "%" else "") + SessionCore(lu) + ['~'] + lu.user
  {
    hide SessionCore, PrintRemote;
    CoreAfter(PrintRemote(lu) + (if lu.persistent then "%" else ""), lu);
  }

  lemma FlagFirst(core: string, user: string)
    ensures "" + "%" + core + ['~'] + user == ['%'] + ("" + core + ['~'] + user)
  {
    assert "" + "%" == ['%'] && "" + core == core;
    assert ['%'] + core + ['~'] == ['%'] + (core + ['~']);
  }

  lemma CoreAfter(prefix: string, lu: LoginUser)
    ensures prefix + lu.instanceUser + "@" + lu.instance + "." + lu.project == prefix + SessionCore(lu)
  {
    assert prefix + lu.instanceUser + "@" + lu.instance == prefix + (lu.instanceUser + "@" + lu.instance);
  }

  /** A session login as parsed back, unless it is persistent on a remote. */
  lemma SessionReadBack(lu: LoginUser, owner: string)
    requires WellFormed(lu) && !lu.createInstance && lu.command == ""
    requires !(lu.persistent && lu.remote != "")
    ensures var p := Parse(EMPTY, Print(lu), owner);
            p == EMPTY.(origUser := Print(lu), user := lu.user, remote := lu.remote, persistent := lu.persistent,
                        instanceUser := lu.instanceUser, instance := lu.instance,
                        project := NamedProject(lu.project))
  {
    hide ParseSession, ParseCreation, ParseCommand, NamedProject, Print, SessionCore, PrintRemote;
    var t := PrintRemote(lu) + SessionCore(lu) + ['~'] + lu.user;
    var base := SetDefaults(EMPTY, owner).(origUser := Print(lu));
    PrintSession(lu);
    if lu.persistent {
      PersistentSession(lu, base, t);
    } else {
      PlainSession(lu, base, t);
    }
  }

  lemma PersistentKept(lu: LoginUser, s: string)
    ensures ParseRemoteAndInstance(lu, s).persistent == lu.persistent
  {
    hide Cut, ReplaceAll;
  }

  /** A persistent session on a remote is parsed as one that is not persistent. */
  lemma PersistentRemoteLost(lu: LoginUser, owner: string)
    requires WellFormed(lu) && !lu.createInstance && lu.command == "" && lu.persistent && lu.remote != ""
    ensures !Parse(EMPTY, Print(lu), owner).persistent
  {
    hide ParseRemoteAndInstance, Cut;
    var s := Print(lu);
    assert s[0] == lu.remote[0];
    assert lu.remote[0] in lu.remote;
    var lu1 := SetDefaults(EMPTY, owner).(origUser := s);
    var tilde, plus := Cut(s, '~'), Cut(s, '+');
    PersistentKept(lu1.(user := tilde.after), tilde.before);
    PersistentKept(lu1.(user := plus.after), plus.before);
    PersistentKept(lu1, s);
  }

  // Creation options

  function Parts(c: CreateConfig): seq<string> { ValueParts(c) + FlagParts(c) }

  /** The printed options are the parts, each after a plus sign. */
  lemma OptionsShape(c: CreateConfig)
    ensures PrintOptions(c) == if Parts(c) == [] then "" else "+" + Join(Parts(c), '+')
  {
    hide ValueParts, FlagParts;
    var v, f := ValueParts(c), FlagParts(c);
    if v != [] {
      JoinAppend([""], v, '+');
      assert Join([""], '+') == "";
    }
    if f != [] {
      JoinAppend([""], f, '+');
      assert Join([""], '+') == "";
    }
    if v != [] && f != [] {
      JoinAppend(v, f, '+');
      assert PrintOptions(c) == "+" + Join(v, '+') + ("+" + Join(f, '+'));
    } else if v == [] {
      assert Parts(c) == f;
    } else {
      assert Parts(c) == v;
    }
  }

  /** No part contains a plus sign or a tilde, and none is empty. */
  predicate PartOk(p: string) { p != "" && '+' !in p && '~' !in p }

  lemma {:induction false} ProfilePartsOk(ps: seq<string>)
    requires forall i :: 0 <= i < |ps| ==> ProfileOk(ps[i])
    ensures forall i :: 0 <= i < |PrintProfiles(ps)| ==> PartOk(PrintProfiles(ps)[i])
  {
    if ps != [] {
      ProfilePartsOk(ps[1..]);
    }
  }

  lemma NumberPartsOk(letter: char, n: Option<int>)
    requires letter in "mcd"
    ensures forall i :: 0 <= i < |PrintNumber(letter, n)| ==> PartOk(PrintNumber(letter, n)[i])
  {
    if n.Some? {
      ItoaChars(n.value, '+');
      ItoaChars(n.value, '~');
    }
  }

  lemma PartsOk(c: CreateConfig)
    requires ConfigOk(c)
    ensures forall i :: 0 <= i < |Parts(c)| ==> PartOk(Parts(c)[i])
  {
    hide PrintNumber, PrintProfiles;
    ProfilePartsOk(c.profiles);
    NumberPartsOk('m', c.memory);
    NumberPartsOk('c', c.cpu);
    NumberPartsOk('d', c.disk);
  }

  lemma {:induction false} ParseOptionsAppend(c: CreateConfig, a: seq<string>, b: seq<string>)
    ensures ParseOptions(c, a + b) == ParseOptions(ParseOptions(c, a), b)
    decreases |a|
  {
    if a == [] {
      assert a + b == b;
    } else {
      assert (a + b)[0] == a[0] && (a + b)[1..] == a[1..] + b;
      ParseOptionsAppend(ParseOption(c, a[0]), a[1..], b);
    }
  }

  lemma {:induction false} ParseProfiles(c: CreateConfig, ps: seq<string>)
    requires forall i :: 0 <= i < |ps| ==> ProfileOk(ps[i])
    ensures ParseOptions(c, PrintProfiles(ps)) == c.(profiles := c.profiles + ps)
    decreases |ps|
  {
    if ps == [] {
      assert c.profiles + ps == c.profiles;
    } else {
      var o := "%" + ps[0];
      assert o[1..] == ps[0];
      SplitSingle(ps[0], ',');
      var c' := ParseOption(c, o);
      assert c' == c.(profiles := c.profiles + [ps[0]]);
      ParseProfiles(c', ps[1..]);
      assert c.profiles + [ps[0]] + ps[1..] == c.profiles + ps;
      assert PrintProfiles(ps)[0] == o && PrintProfiles(ps)[1..] == PrintProfiles(ps[1..]);
    }
  }

  lemma ParseOne(c: CreateConfig, o: string)
    ensures ParseOptions(c, [o]) == ParseOption(c, o) && ParseOptions(c, []) == c
  {}

  function SetLetter(c: CreateConfig, letter: char, n: Option<int>): CreateConfig {
    if n.None? then c
    else if letter == 'm' then c.(memory := n)
    else if letter == 'c' then c.(cpu := n)
    else c.(disk := n)
  }

  lemma ParseNumber(c: CreateConfig, letter: char, n: Option<int>)
    requires letter in "mcd" && NumberOk(n)
    ensures ParseOptions(c, PrintNumber(letter, n)) == SetLetter(c, letter, n)
  {
    if n.Some? {
      var o := [letter] + Itoa(n.value);
      ParseOne(c, o);
      ItoaChars(n.value, '/');
      AtoiReadsItoa(n.value);
      assert o[1..] == Itoa(n.value) && '/' !in o;
    }
  }

  /** What the printed flags set. */
  function Flag(f: Option<bool>): Option<bool> { if On(f) then Some(true) else None }

  lemma ParseFlags(c: CreateConfig, of: CreateConfig)
    requires c.nesting.None? && c.privileged.None? && c.vm.None?
    ensures ParseOptions(c, FlagParts(of)) ==
            c.(nesting := Flag(of.nesting), privileged := Flag(of.privileged), vm := Flag(of.vm))
  {
    hide ParseOptions, SplitOn, Atoi;
    var n := if On(of.nesting) then ["nest"] else [];
    var p := if On(of.privileged) then ["priv"] else [];
    var v := if On(of.vm) then ["vm"] else [];
    ParseOptionsAppend(c, n + p, v);
    ParseOptionsAppend(c, n, p);
    var c1 := c.(nesting := Flag(of.nesting));
    ParseOne(c, "nest");
    var c2 := c1.(privileged := Flag(of.privileged));
    ParseOne(c1, "priv");
    ParseOne(c2, "vm");
    assert ParseOptions(c, n) == c1 && ParseOptions(c1, p) == c2;
  }

  /** Starting from an empty configuration, the printed parts restore it. */
  lemma ParseParts(c0: CreateConfig, c: CreateConfig)
    requires ConfigOk(c) && c0 == NO_CONFIG.(ephemeral := c0.ephemeral)
    ensures ParseOptions(c0, Parts(c)) ==
            CreateConfig(c.image, c.memory, c.cpu, c.disk, c0.ephemeral, Flag(c.nesting), Flag(c.privileged),
                         Flag(c.vm), c.profiles)
  {
    hide ParseOption, ParseOptions, PrintNumber, PrintProfiles, FlagParts;
    var i := if c.image.Some? then [c.image.value] else [];
    var p, m, u, d := PrintProfiles(c.profiles), PrintNumber('m', c.memory), PrintNumber('c', c.cpu), PrintNumber('d', c.disk);
    var f := FlagParts(c);
    ParseOptionsAppend(c0, i + p + m + u + d, f);
    ParseOptionsAppend(c0, i + p + m + u, d);
    ParseOptionsAppend(c0, i + p + m, u);
    ParseOptionsAppend(c0, i + p, m);
    ParseOptionsAppend(c0, i, p);
    var c1 := c0.(image := c.image);
    ParseImage(c0, c.image);
    ParseProfiles(c1, c.profiles);
    assert [] + c.profiles == c.profiles;
    var c2 := c1.(profiles := c.profiles);
    ParseNumber(c2, 'm', c.memory);
    var c3 := c2.(memory := c.memory);
    ParseNumber(c3, 'c', c.cpu);
    var c4 := c3.(cpu := c.cpu);
    ParseNumber(c4, 'd', c.disk);
    ParseFlags(c4.(disk := c.disk), c);
  }

  lemma ParseImage(c: CreateConfig, image: Option<string>)
    requires (image.Some? ==> ImageOk(image.value)) && c.image.None?
    ensures ParseOptions(c, if image.Some? then [image.value] else []) == c.(image := image)
  {
    if image.Some? {
      ParseOne(c, image.value);
    } else {
      ParseOne(c, "");
    }
  }

  // Creation logins

  function CreationCore(lu: LoginUser): string { PrintRemote(lu) + (lu.instance + "." + lu.project) }

  /** Cutting the printed creation login into its core and its options. */
  lemma CreationCuts(lu: LoginUser, conf: string)
    requires WellFormed(lu) && lu.createInstance && conf == CreationCore(lu) + PrintOptions(lu.config)
    ensures '~' !in conf
    ensures Cut(conf, '+').before == CreationCore(lu)
    ensures Cut(conf, '+').after == Join(Parts(lu.config), '+')
  {
    hide PrintOptions, Parts, Cut;
    var c, parts, core := lu.config, Parts(lu.config), CreationCore(lu);
    OptionsShape(c);
    PartsOk(c);
    NotInJoin(parts, '+', '~');
    if parts == [] {
      assert conf == core;
      CutNowhere(core, '+');
    } else {
      assert conf == core + ['+'] + Join(parts, '+');
      CutAt(core, '+', Join(parts, '+'));
    }
  }

  lemma OptionsReadBack(c0: CreateConfig, c: CreateConfig)
    requires ConfigOk(c) && c0 == NO_CONFIG.(ephemeral := c0.ephemeral)
    ensures ParseCreateConfig(c0, Join(Parts(c), '+')) ==
            CreateConfig(c.image, c.memory, c.cpu, c.disk, c0.ephemeral, Flag(c.nesting), Flag(c.privileged),
                         Flag(c.vm), c.profiles)
  {
    hide Parts, ParseOptions, SplitOn;
    var parts := Parts(c);
    PartsOk(c);
    ParseParts(c0, c);
    if parts == [] {
      ParseOne(c0, "");
    } else {
      SplitJoin(parts, '+');
      JoinNonEmpty(parts);
    }
  }

  lemma JoinNonEmpty(parts: seq<string>)
    requires parts != [] && parts[0] != ""
    ensures Join(parts, '+') != ""
  {}

  /** A host user as the grammar of creation logins takes it. */
  function HostSuffix(host: Option<string>): string { if host.None? then "" else "~" + host.value }

  lemma HostCut(conf: string, host: Option<string>)
    requires '~' !in conf
    ensures Cut(conf + HostSuffix(host), '~') ==
            if host.None? then Cutting(conf, "", false) else Cutting(conf, host.value, true)
  {
    hide Cut;
    if host.None? {
      assert conf + "" == conf;
      CutNowhere(conf, '~');
    } else {
      assert conf + ("~" + host.value) == conf + ['~'] + host.value;
      CutAt(conf, '~', host.value);
    }
  }

  /** A printed creation login, with or without a host user after it, as parsed
      back. */
  lemma CreationParsed(lu: LoginUser, host: Option<string>, owner: string)
    requires WellFormed(lu) && lu.createInstance
    ensures var p := Parse(EMPTY, Print(lu) + HostSuffix(host), owner);
            && p.createInstance && p.remote == lu.remote && p.instance == lu.instance
            && p.project == NamedProject(lu.project) && p.user == (if host.None? then owner else host.value)
            && p.config == CreateConfig(lu.config.image, lu.config.memory, lu.config.cpu, lu.config.disk,
                 Flag(lu.config.ephemeral), Flag(lu.config.nesting), Flag(lu.config.privileged),
                 Flag(lu.config.vm), lu.config.profiles)
  {
    hide Parts, PrintOptions, Cut, ParseCreateConfig, ParseRemoteAndInstance, ParseInstanceAndUser, NamedProject, HostSuffix;
    var s := Print(lu) + HostSuffix(host);
    var flag := if On(lu.config.ephemeral) then '~' else '+';
    var conf := CreationCore(lu) + PrintOptions(lu.config);
    assert Print(lu) == [flag] + conf;
    assert s[0] == flag && s[1..] == conf + HostSuffix(host);
    CreationCuts(lu, conf);
    HostCut(conf, host);
    var config := NO_CONFIG.(ephemeral := Flag(lu.config.ephemeral));
    var user := if host.None? then owner else host.value;
    var base := SetDefaults(EMPTY, owner).(origUser := s, createInstance := true, config := config, user := user);
    ParsePrintedRemote(base, lu, lu.instance + "." + lu.project);
    ParseWithoutUser(base.(remote := lu.remote), lu.instance, lu.project);
    OptionsReadBack(config, lu.config);
  }

  /** A creation login as parsed back: all its fields, except that the host user
      is not printed and comes back as the owner of the server. */
  lemma CreationReadBack(lu: LoginUser, owner: string)
    requires WellFormed(lu) && lu.createInstance
    ensures var p := Parse(EMPTY, Print(lu), owner);
            && p.createInstance && p.remote == lu.remote && p.instance == lu.instance
            && p.project == NamedProject(lu.project) && p.user == owner
            && p.config == CreateConfig(lu.config.image, lu.config.memory, lu.config.cpu, lu.config.disk,
                 Flag(lu.config.ephemeral), Flag(lu.config.nesting), Flag(lu.config.privileged),
                 Flag(lu.config.vm), lu.config.profiles)
  {
    hide Parse, Print, NamedProject;
    CreationParsed(lu, None, owner);
    assert Print(lu) + "" == Print(lu);
  }

  // Commands

  lemma TargetReadBack(cmd: string, target: string, owner: string)
    requires cmd in ["explain", "remove", "remove-force"]
    ensures var p := Parse(EMPTY, "/" + cmd + "/" + target, owner);
            && !p.createInstance && p.user == owner
            && (cmd == "explain" ==> p.command == "explain" && p.explainUser == Some(Parse(EMPTY, target, owner)))
            && (cmd != "explain" ==> p.command == "remove" && p.removeUser == Some(Parse(EMPTY, target, owner))
                                     && p.forceRemove == (cmd == "remove-force"))
  {
    hide Cut, ParseCreation, ParseSession;
    var s := "/" + cmd + "/" + target;
    assert s[0] == '/' && s[1..] == cmd + ['/'] + target;
    CutAt(cmd, '/', target);
    var lu1 := SetDefaults(EMPTY, owner).(origUser := s);
    assert Parse(EMPTY, s, owner) == ParseCommand(lu1, s[1..], owner);
  }

  /** Any other command comes back with the host user glued to its name. */
  lemma CommandNotReadBack(lu: LoginUser, owner: string)
    requires DelimFree(lu.command) && Print(lu) == "/" + lu.command + "@" + lu.user
    ensures Parse(EMPTY, Print(lu), owner).command != lu.command
  {
    hide Cut, ParseCreation, ParseSession, Print;
    var s := Print(lu);
    var cmd := lu.command + "@" + lu.user;
    assert s[0] == '/' && s[1..] == cmd;
    CutKeepsPrefix(lu.command + "@", lu.user, '/');
    CutShorter(cmd, '/');
    var before := Cut(cmd, '/').before;
    assert before[|lu.command|] == '@' && '@' in before;
    var lu1 := SetDefaults(EMPTY, owner).(origUser := s);
    assert Parse(EMPTY, s, owner) == ParseCommand(lu1, cmd, owner);
    assert ParseCommand(lu1, cmd, owner).command == before;
  }

  lemma {:induction false} CutKeepsPrefix(a: string, b: string, c: char)
    requires c !in a
    ensures a <= Cut(a + b, c).before
  {
    if a != [] {
      assert (a + b)[0] == a[0] && (a + b)[1..] == a[1..] + b;
      CutKeepsPrefix(a[1..], b, c);
      assert a == [a[0]] + a[1..];
    }
  }

  function RemoveName(lu: LoginUser): string { if lu.forceRemove then "remove-force" else "remove" }

  /** How the three kinds of command print. */
  lemma PrintCommand(lu: LoginUser)
    ensures !lu.createInstance && lu.command == "explain" && lu.explainUser.Some? ==>
              Print(lu) == "/" + "explain" + "/" + Print(lu.explainUser.value)
    ensures !lu.createInstance && lu.command == "remove" && lu.removeUser.Some? ==>
              Print(lu) == "/" + RemoveName(lu) + "/" + Print(lu.removeUser.value)
    ensures !lu.createInstance && lu.command != "" && !(lu.command == "explain" && lu.explainUser.Some?)
            && !(lu.command == "remove" && lu.removeUser.Some?) ==>
              Print(lu) == "/" + lu.command + "@" + lu.user
  {
    assert "/" + "explain" + "/" == "/explain/";
  }

  lemma SessionRoundTrip(lu: LoginUser, owner: string)
    requires WellFormed(lu) && !lu.createInstance && lu.command == ""
    ensures Recovered(Parse(EMPTY, Print(lu), owner), lu) <==> Survives(lu)
  {
    hide Parse, Print;
    if lu.persistent && lu.remote != "" {
      PersistentRemoteLost(lu, owner);
    } else {
      SessionReadBack(lu, owner);
    }
  }

  lemma CreationRoundTrip(lu: LoginUser, owner: string)
    requires WellFormed(lu) && lu.createInstance
    ensures Recovered(Parse(EMPTY, Print(lu), owner), lu) <==> Survives(lu)
  {
    hide Parse, Print;
    CreationReadBack(lu, owner);
  }

  /** Printing and parsing recovers a login exactly if it survives. */
  lemma {:induction false} RoundTripIff(lu: LoginUser, owner: string)
    requires WellFormed(lu)
    ensures Recovered(Parse(EMPTY, Print(lu), owner), lu) <==> Survives(lu)
    decreases lu
  {
    hide Parse, Print;
    PrintCommand(lu);
    if lu.createInstance {
      CreationRoundTrip(lu, owner);
    } else if lu.command == "" {
      SessionRoundTrip(lu, owner);
    } else if lu.command == "explain" && lu.explainUser.Some? {
      RoundTripIff(lu.explainUser.value, owner);
      TargetReadBack("explain", Print(lu.explainUser.value), owner);
    } else if lu.command == "remove" && lu.removeUser.Some? {
      RoundTripIff(lu.removeUser.value, owner);
      TargetReadBack(RemoveName(lu), Print(lu.removeUser.value), owner);
    } else {
      CommandNotReadBack(lu, owner);
    }
  }

  // The host user, which creation logins and commands do not print

  /** p has the host users of lu, at every level of nesting. */
  predicate SameUsers(p: LoginUser, lu: LoginUser)
    decreases lu
  {
    && p.user == lu.user
    && (if lu.createInstance then true
        else if lu.command == "explain" && lu.explainUser.Some? then
          p.explainUser.Some? && SameUsers(p.explainUser.value, lu.explainUser.value)
        else if lu.command == "remove" && lu.removeUser.Some? then
          p.removeUser.Some? && SameUsers(p.removeUser.value, lu.removeUser.value)
        else true)
  }

  /** Every host user that is not printed is the owner of the server. */
  predicate UsersAreOwner(lu: LoginUser, owner: string) {
    if lu.createInstance then lu.user == owner
    else if lu.command == "explain" && lu.explainUser.Some? then
      lu.user == owner && UsersAreOwner(lu.explainUser.value, owner)
    else if lu.command == "remove" && lu.removeUser.Some? then
      lu.user == owner && UsersAreOwner(lu.removeUser.value, owner)
    else true
  }

  /** Printing and parsing recovers a login with its host users exactly if it
      survives and those that are not printed are the owner of the server. */
  lemma {:induction false} FullRoundTripIff(lu: LoginUser, owner: string)
    requires WellFormed(lu)
    ensures var p := Parse(EMPTY, Print(lu), owner);
            Recovered(p, lu) && SameUsers(p, lu) <==> Survives(lu) && UsersAreOwner(lu, owner)
    decreases lu
  {
    hide Parse, Print;
    PrintCommand(lu);
    RoundTripIff(lu, owner);
    if lu.createInstance {
      CreationReadBack(lu, owner);
    } else if lu.command == "explain" && lu.explainUser.Some? {
      FullRoundTripIff(lu.explainUser.value, owner);
      TargetReadBack("explain", Print(lu.explainUser.value), owner);
    } else if lu.command == "remove" && lu.removeUser.Some? {
      FullRoundTripIff(lu.removeUser.value, owner);
      TargetReadBack(RemoveName(lu), Print(lu.removeUser.value), owner);
    }
  }

  /** A recovered login prints the same string again. */
  lemma {:induction false} RecoveredPrintsSame(p: LoginUser, lu: LoginUser)
    requires Recovered(p, lu) && Survives(lu)
    ensures Print(p) == Print(lu)
    decreases lu
  {
    if lu.createInstance {
      assert ValueParts(p.config) == ValueParts(lu.config) && FlagParts(p.config) == FlagParts(lu.config);
    } else if lu.command == "explain" {
      RecoveredPrintsSame(p.explainUser.value, lu.explainUser.value);
    } else if lu.command == "remove" {
      RecoveredPrintsSame(p.removeUser.value, lu.removeUser.value);
    }
  }

  /** Every creation login that names a host user loses it: the parser reads it,
      the printer drops it, and it comes back as the owner of the server. */
  lemma HostUserLost(lu: LoginUser, user: string, owner: string)
    requires WellFormed(lu) && lu.createInstance && Survives(lu)
    ensures var q := Parse(EMPTY, Print(lu) + "~" + user, owner);
            && q.user == user && Recovered(q, lu)
            && Print(q) == Print(lu) && Parse(EMPTY, Print(q), owner).user == owner
  {
    hide Parse, Print;
    CreationParsed(lu, Some(user), owner);
    assert Print(lu) + ("~" + user) == Print(lu) + "~" + user;
    RecoveredPrintsSame(Parse(EMPTY, Print(lu) + "~" + user, owner), lu);
    CreationReadBack(lu, owner);
  }
}
