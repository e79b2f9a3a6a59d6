/** `parse_parms`: the command line rebuilt from the fields of the built-in
    cron settings or of a configuration section, split on whitespace and
    handed back to the argument parser. The text that the f-string makes of
    the decoded password is a parameter. */
module Params {
  import opened Text

  /** The seven positional fields, in call order. */
  datatype Fields = Fields(site: string, port: string, remote: string, local: string,
                           user: string, password: string, options: string)

  /** The f-string. No separator stands between port and remote, nor
      between user and the rendered password. */
  function Template(f: Fields, render: string -> string): (r: string)
    ensures HasPrefix(r, "shell ") && HasSuffix(r, " " + f.options)
    ensures |r| == 16 + |f.site| + |f.port| + |f.remote| + |f.local| + |f.user|
                   + |render(f.password)| + |f.options|
  {
    "shell " + f.site + " -p " + f.port + f.remote + " " + f.local + " -l " + f.user
      + render(f.password) + " " + f.options
  }

  function ParseParms(f: Fields, render: string -> string): (r: seq<string>)
    ensures forall i :: 0 <= i < |r| ==> Token(r[i])
  {
    Split(Template(f, render))
  }

  lemma SpaceStep(x: string, y: string)
    ensures Split(x + " " + y) == Split(x) + Split(y)
  {
    assert x + " " + y == x + [' '] + y;
    SplitAtSpace(x, ' ', y);
  }

  /** A flag between two single spaces is one token between the splits of
      its two sides. */
  lemma FlagStep(x: string, flag: string, y1: string, y2: string)
    requires Token(flag)
    ensures Split(x + ([' '] + flag + [' ']) + y1 + y2) == Split(x) + [flag] + Split(y1 + y2)
  {
    var y := y1 + y2;
    assert x + ([' '] + flag + [' ']) + y1 + y2 == x + [' '] + (flag + [' '] + y);
    SplitAtSpace(x, ' ', flag + [' '] + y);
    SplitAtSpace(flag, ' ', y);
    SplitToken(flag);
  }

  lemma ShellStep(site: string)
    ensures Split("shell " + site) == ["shell"] + Split(site)
  {
    assert "shell " + site == "shell" + [' '] + site;
    SplitAtSpace("shell", ' ', site);
    assert Printable("shell");
    PrintableToken("shell");
    SplitToken("shell");
  }

  lemma PortStep(x: string, port: string, remote: string)
    ensures Split(x + " -p " + port + remote) == Split(x) + ["-p"] + Split(port + remote)
  {
    assert " -p " == [' '] + "-p" + [' '];
    assert Printable("-p");
    PrintableToken("-p");
    FlagStep(x, "-p", port, remote);
  }

  lemma LoginStep(x: string, user: string, pw: string)
    ensures Split(x + " -l " + user + pw) == Split(x) + ["-l"] + Split(user + pw)
  {
    assert " -l " == [' '] + "-l" + [' '];
    assert Printable("-l");
    PrintableToken("-l");
    FlagStep(x, "-l", user, pw);
  }

  /** Whatever the fields hold, the result is the whitespace split of each
      field in turn around the three fixed words, with port and remote
      split as one string and user and rendered password as another. */
  lemma FieldsSplit(f: Fields, render: string -> string)
    ensures ParseParms(f, render)
      == ["shell"] + Split(f.site) + ["-p"] + Split(f.port + f.remote) + Split(f.local)
         + ["-l"] + Split(f.user + render(f.password)) + Split(f.options)
  {
    var pw := render(f.password);
    var s2 := "shell " + f.site;
    var s5 := s2 + " -p " + f.port + f.remote;
    var s6 := s5 + " " + f.local;
    var s8 := s6 + " -l " + f.user + pw;
    SpaceStep(s8, f.options);
    LoginStep(s6, f.user, pw);
    SpaceStep(s5, f.local);
    PortStep(s2, f.port, f.remote);
    ShellStep(f.site);
  }

  /** With single-token fields the result has seven words before the
      options: the port is glued to the remote directory and the user to
      the rendered password. */
  lemma FusedTokens(f: Fields, render: string -> string)
    requires Token(f.site) && Token(f.port + f.remote) && Token(f.local)
    requires Token(f.user + render(f.password))
    ensures ParseParms(f, render)
      == ["shell", f.site, "-p", f.port + f.remote, f.local, "-l", f.user + render(f.password)]
         + Split(f.options)
  {
    FieldsSplit(f, render);
    SplitToken(f.site);
    SplitToken(f.port + f.remote);
    SplitToken(f.local);
    SplitToken(f.user + render(f.password));
  }

  /** An empty port leaves `-p` followed by the remote directory. */
  lemma EmptyPort(f: Fields, render: string -> string)
    requires f.port == "" && Token(f.site) && Token(f.remote) && Token(f.local)
    requires Token(f.user + render(f.password)) && f.options == ""
    ensures ParseParms(f, render)
      == ["shell", f.site, "-p", f.remote, f.local, "-l", f.user + render(f.password)]
  {
    assert f.port + f.remote == f.remote;
    FusedTokens(f, render);
    assert Split(f.options) == [];
  }

  lemma CronTokens()
    ensures Token("localhost") && Token("directory")
    ensures Token("/your/path/to/your/local/directory/") && Token("userb'password'")
  {
    assert Printable("localhost");
    PrintableToken("localhost");
    assert Printable("directory");
    PrintableToken("directory");
    assert Printable("/your/path/to/your/local/directory/");
    PrintableToken("/your/path/to/your/local/directory/");
    assert Printable("userb'password'");
    PrintableToken("userb'password'");
  }

  /** The built-in cron settings: the empty port lets `-p` take the remote
      directory, and the user name runs into the rendered password. */
  lemma CronSettings(render: string -> string)
    requires render("cGFzc3dvcmQ=") == "b'password'"
    ensures ParseParms(Fields("localhost", "", "directory", "/your/path/to/your/local/directory/",
                              "user", "cGFzc3dvcmQ=", ""), render)
      == ["shell", "localhost", "-p", "directory", "/your/path/to/your/local/directory/",
          "-l", "userb'password'"]
  {
    var f := Fields("localhost", "", "directory", "/your/path/to/your/local/directory/",
                    "user", "cGFzc3dvcmQ=", "");
    CronTokens();
    assert f.user + render(f.password) == "userb'password'";
    EmptyPort(f, render);
  }
}
