/** The LoginUser object of server/user.go: methods that assign its fields, each
    proved against the parser functions. A nested target is kept as the value
    that its own object had when it was parsed. */
module LoginObject {
  import opened Strings
  import opened LoginUser

  class LoginObject {
    var origUser: string
    var remote: string
    var user: string
    var instance: string
    var project: string
    var instanceUser: string
    var command: string
    var persistent: bool
    var createInstance: bool
    var config: CreateConfig
    var explainUser: Option<LoginUser>
    var removeUser: Option<LoginUser>
    var forceRemove: bool

    /** The fields as one value. */
    function Contents(): LoginUser
      reads this
    {
      LoginUser(origUser, remote, user, instance, project, instanceUser, command, persistent, createInstance,
                config, explainUser, removeUser, forceRemove)
    }

    constructor ()
      ensures Contents() == EMPTY
    {
      origUser, remote, user, instance, project, instanceUser, command := "", "", "", "", "", "", "";
      persistent, createInstance, forceRemove := false, false, false;
      config, explainUser, removeUser := NO_CONFIG, None, None;
    }

    method ParseInstanceAndProjectInto(s: string)
      modifies this
      ensures Contents() == ParseInstanceAndProject(old(Contents()), s)
    {
      var c := Cut(s, '.');
      if c.found {
        instance := c.before;
        project := c.after;
      } else {
        instance := s;
      }
      if project == "" {
        project := "default";
      }
    }

    method ParseInstanceAndUserInto(s: string)
      modifies this
      ensures Contents() == ParseInstanceAndUser(old(Contents()), s)
    {
      hide Cut, ParseInstanceAndProject;
      var t := ReplaceAll(s, "%40", "@");
      t := ReplaceAll(t, "%2540", "@");
      var c := Cut(t, '@');
      if c.found {
        t := c.after;
        instanceUser := c.before;
      }
      ParseInstanceAndProjectInto(t);
    }

    method ParseRemoteAndInstanceInto(s: string)
      modifies this
      ensures Contents() == ParseRemoteAndInstance(old(Contents()), s)
    {
      hide Cut, ParseInstanceAndUser;
      var t := s;
      var c := Cut(t, ':');
      if c.found {
        remote := c.before;
        t := c.after;
      }
      ParseInstanceAndUserInto(t);
    }

    /** parseCreateConfig: one pass over the options. */
    method ParseCreateConfigInto(s: string)
      modifies this`config
      ensures config == ParseCreateConfig(old(config), s)
    {
      if s == "" {
        return;
      }
      var configs := SplitOn(s, '+');
      ghost var start := config;
      assert configs[0..] == configs;
      for i := 0 to |configs|
        invariant ParseOptions(config, configs[i..]) == ParseOptions(start, configs)
      {
        assert configs[i..][0] == configs[i] && configs[i..][1..] == configs[i + 1..];
        config := ParseOption(config, configs[i]);
      }
    }

    method ParseCreationInto(s: string)
      requires s != ""
      modifies this
      ensures Contents() == ParseCreation(old(Contents()), s)
    {
      hide Cut, ParseRemoteAndInstance, ParseCreateConfig;
      var conf := s[1..];
      createInstance := true;
      config := NO_CONFIG;
      if s[0] == '~' {
        config := config.(ephemeral := Some(true));
      }
      var host := Cut(conf, '~');
      CutShorter(conf, '~');
      if host.found {
        conf := host.before;
        user := host.after;
      }
      var opts := Cut(conf, '+');
      ParseRemoteAndInstanceInto(opts.before);
      ParseCreateConfigInto(opts.after);
    }

    method ParseSessionInto(s: string)
      modifies this
      ensures Contents() == ParseSession(old(Contents()), s)
    {
      hide Cut, ParseRemoteAndInstance;
      var t := s;
      if t != "" && t[0] == '%' {
        t := t[1..];
        persistent := true;
      }
      var inst := t;
      var tilde := Cut(t, '~');
      if tilde.found {
        inst := tilde.before;
        user := tilde.after;
      } else {
        var plus := Cut(t, '+');
        if plus.found {
          inst := plus.before;
          user := plus.after;
        }
      }
      ParseRemoteAndInstanceInto(inst);
    }

    /** ParseFrom: the recursion ends because each target is a proper suffix. */
    method ParseFrom(s: string, owner: string)
      modifies this
      ensures Contents() == Parse(old(Contents()), s, owner)
      decreases |s|, 1
    {
      hide ParseCreation, ParseSession, ParseCommand;
      instanceUser, project, user := "root", "default", owner;
      origUser := s;
      if IsCreationFormat(s) {
        ParseCreationInto(s);
        return;
      }
      if s == "" || s[0] != '/' {
        ParseSessionInto(s);
      } else {
        ParseCommandInto(s[1..], owner);
      }
    }

    /** A target is parsed into an object of its own. */
    static method ParseTarget(s: string, owner: string) returns (target: LoginUser)
      ensures target == Parse(EMPTY, s, owner)
      decreases |s|, 2
    {
      hide Parse;
      var object_ := new LoginObject();
      object_.ParseFrom(s, owner);
      target := object_.Contents();
    }

    method ParseExplainInto(s: string, owner: string)
      modifies this
      ensures Contents() == old(Contents()).(command := "explain", explainUser := Some(Parse(EMPTY, s, owner)))
      decreases |s|, 3
    {
      hide Parse;
      command := "explain";
      var target := ParseTarget(s, owner);
      explainUser := Some(target);
    }

    method ParseRemoveInto(name: string, s: string, owner: string)
      modifies this
      ensures Contents() == old(Contents()).(command := "remove", forceRemove := IsForced(name),
                                             removeUser := Some(Parse(EMPTY, s, owner)))
      decreases |s|, 3
    {
      hide Parse, IsForced;
      command := "remove";
      forceRemove := IsForced(name);
      var target := ParseTarget(s, owner);
      removeUser := Some(target);
    }

    /** The command branch of parseRegularFormat. */
    method ParseCommandInto(cmd: string, owner: string)
      modifies this
      ensures Contents() == ParseCommand(old(Contents()), cmd, owner)
      decreases |cmd|, 0
    {
      hide Cut, Parse, IsRemoval, IsForced;
      var c := Cut(cmd, '/');
      CutShorter(cmd, '/');
      if !c.found {
        command := cmd;
      } else if c.before == "explain" {
        ParseExplainInto(c.after, owner);
      } else if IsRemoval(c.before) {
        ParseRemoveInto(c.before, c.after, owner);
      } else {
        command := c.before;
      }
      instance, project, instanceUser := "", "", "";
    }
  }
}
