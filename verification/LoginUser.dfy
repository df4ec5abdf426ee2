/** The login string of server/user.go: its parser and its printer. */
module LoginUser {
  import opened Strings

  datatype CreateConfig = CreateConfig(
    image: Option<string>, memory: Option<int>, cpu: Option<int>, disk: Option<int>,
    ephemeral: Option<bool>, nesting: Option<bool>, privileged: Option<bool>, vm: Option<bool>,
    profiles: seq<string>)

  datatype LoginUser = LoginUser(
    origUser: string, remote: string, user: string, instance: string, project: string, instanceUser: string,
    command: string, persistent: bool, createInstance: bool, config: CreateConfig,
    explainUser: Option<LoginUser>, removeUser: Option<LoginUser>, forceRemove: bool)

  const NO_CONFIG: CreateConfig := CreateConfig(None, None, None, None, None, None, None, None, [])
  const EMPTY: LoginUser := LoginUser("", "", "", "", "", "", "", false, false, NO_CONFIG, None, None, false)

  // The parser. The default host user is the owner of the server process.

  function SetDefaults(lu: LoginUser, owner: string): LoginUser {
    lu.(instanceUser := "root", project := "default", user := owner)
  }

  predicate IsCreationFormat(s: string) { s != "" && (s[0] == '+' || s[0] == '~') }

  function ParseInstanceAndProject(lu: LoginUser, s: string): LoginUser {
    var c := Cut(s, '.');
    var lu' := if c.found then lu.(instance := c.before, project := c.after) else lu.(instance := s);
    if lu'.project == "" then lu'.(project := "default") else lu'
  }

  function ParseInstanceAndUser(lu: LoginUser, s: string): LoginUser {
    var t := ReplaceAll(ReplaceAll(s, "%40", "@"), "%2540", "@");
    var c := Cut(t, '@');
    if c.found then ParseInstanceAndProject(lu.(instanceUser := c.before), c.after)
    else ParseInstanceAndProject(lu, t)
  }

  function ParseRemoteAndInstance(lu: LoginUser, s: string): LoginUser {
    var c := Cut(s, ':');
    if c.found then ParseInstanceAndUser(lu.(remote := c.before), c.after)
    else ParseInstanceAndUser(lu, s)
  }

  predicate HasPrefix(s: string, p: string) { p <= s }

  function SetNumber(old_: Option<int>, s: string): Option<int> {
    if Atoi(s).Some? then Atoi(s) else old_
  }

  /** One option of the creation format. */
  function ParseOption(c: CreateConfig, o: string): CreateConfig {
    if |o| == 0 then c
    else if o[0] == '%' then c.(profiles := c.profiles + SplitOn(o[1..], ','))
    else if '/' in o then c.(image := Some(o))
    else if o[0] == 'm' then c.(memory := SetNumber(c.memory, o[1..]))
    else if o[0] == 'c' then c.(cpu := SetNumber(c.cpu, o[1..]))
    else if o[0] == 'd' then c.(disk := SetNumber(c.disk, o[1..]))
    else if o == "n" || HasPrefix(o, "nest") then c.(nesting := Some(true))
    else if o == "p" || HasPrefix(o, "priv") then c.(privileged := Some(true))
    else if o == "e" || HasPrefix(o, "ephe") then c.(ephemeral := Some(true))
    else if o == "v" || o == "vm" then c.(vm := Some(true))
    else c
  }

  function ParseOptions(c: CreateConfig, os: seq<string>): CreateConfig
    decreases |os|
  {
    if os == [] then c else ParseOptions(ParseOption(c, os[0]), os[1..])
  }

  function ParseCreateConfig(c: CreateConfig, s: string): CreateConfig {
    if s == "" then c else ParseOptions(c, SplitOn(s, '+'))
  }

  function ParseCreation(lu: LoginUser, s: string): LoginUser
    requires s != ""
  {
    var config := if s[0] == '~' then NO_CONFIG.(ephemeral := Some(true)) else NO_CONFIG;
    var lu1 := lu.(createInstance := true, config := config);
    var host := Cut(s[1..], '~');
    var lu2 := if host.found then lu1.(user := host.after) else lu1;
    var opts := Cut(host.before, '+');
    var lu3 := ParseRemoteAndInstance(lu2, opts.before);
    lu3.(config := ParseCreateConfig(lu3.config, opts.after))
  }

  function ParseSession(lu: LoginUser, s: string): LoginUser {
    var persistent := s != "" && s[0] == '%';
    var t := if persistent then s[1..] else s;
    var lu1 := if persistent then lu.(persistent := true) else lu;
    var tilde, plus := Cut(t, '~'), Cut(t, '+');
    if tilde.found then ParseRemoteAndInstance(lu1.(user := tilde.after), tilde.before)
    else if plus.found then ParseRemoteAndInstance(lu1.(user := plus.after), plus.before)
    else ParseRemoteAndInstance(lu1, t)
  }

  predicate IsRemoval(name: string) { name in ["rm", "rm-f", "remove", "remove-force"] }

  predicate IsForced(name: string) { name == "rm-f" || name == "remove-force" }

  /** What a command line after the first slash asks for. */
  function ParseCommand(lu: LoginUser, cmd: string, owner: string): LoginUser
    decreases |cmd|, 0
  {
    var c := Cut(cmd, '/');
    CutShorter(cmd, '/');
    var lu1 :=
      if !c.found then lu.(command := cmd)
      else if c.before == "explain" then
        lu.(command := "explain", explainUser := Some(Parse(EMPTY, c.after, owner)))
      else if IsRemoval(c.before) then
        lu.(command := "remove", forceRemove := IsForced(c.before),
            removeUser := Some(Parse(EMPTY, c.after, owner)))
      else lu.(command := c.before);
    lu1.(instance := "", project := "", instanceUser := "")
  }

  lemma CutShorter(s: string, c: char)
    ensures Cut(s, c).found ==> |Cut(s, c).after| < |s|
    ensures !Cut(s, c).found ==> Cut(s, c).before == s
  {
    if s != [] {
      CutShorter(s[1..], c);
    }
  }

  /** ParseFrom; each nested target is shorter than the command that holds it. */
  function Parse(lu: LoginUser, s: string, owner: string): LoginUser
    decreases |s|, 1
  {
    var lu1 := SetDefaults(lu, owner).(origUser := s);
    if IsCreationFormat(s) then ParseCreation(lu1, s)
    else if s != "" && s[0] == '/' then ParseCommand(lu1, s[1..], owner)
    else ParseSession(lu1, s)
  }

  // The printer

  predicate On(flag: Option<bool>) { flag == Some(true) }

  function PrintNumber(letter: char, n: Option<int>): seq<string> {
    if n.Some? then [[letter] + Itoa(n.value)] else []
  }

  function PrintProfiles(ps: seq<string>): seq<string> {
    if ps == [] then [] else ["%" + ps[0]] + PrintProfiles(ps[1..])
  }

  function ValueParts(c: CreateConfig): seq<string> {
    (if c.image.Some? then [c.image.value] else []) + PrintProfiles(c.profiles)
    + PrintNumber('m', c.memory) + PrintNumber('c', c.cpu) + PrintNumber('d', c.disk)
  }

  function FlagParts(c: CreateConfig): seq<string> {
    (if On(c.nesting) then ["nest"] else []) + (if On(c.privileged) then ["priv"] else [])
    + (if On(c.vm) then ["vm"] else [])
  }

  function PrintOptions(c: CreateConfig): string {
    (if ValueParts(c) == [] then "" else Join([""] + ValueParts(c), '+'))
    + (if FlagParts(c) == [] then "" else Join([""] + FlagParts(c), '+'))
  }

  function PrintRemote(lu: LoginUser): string { if lu.remote == "" then "" else lu.remote + ":" }

  function Print(lu: LoginUser): string {
    if lu.createInstance then
      (if On(lu.config.ephemeral) then "~" else "+") + PrintRemote(lu) + lu.instance + "." + lu.project
      + PrintOptions(lu.config)
    else if lu.command == "explain" && lu.explainUser.Some? then "/explain/" + Print(lu.explainUser.value)
    else if lu.command == "remove" && lu.removeUser.Some? then
      "/" + (if lu.forceRemove then "remove-force" else "remove") + "/" + Print(lu.removeUser.value)
    else if lu.command != "" then "/" + lu.command + "@" + lu.user
    else
      PrintRemote(lu) + (if lu.persistent then "%" else "") + lu.instanceUser + "@" + lu.instance + "."
      + lu.project + "~" + lu.user
  }
}
