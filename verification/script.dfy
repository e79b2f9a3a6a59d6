/** The lftp control script and the mirror option string that `mirror`
    renders from the parsed arguments. `os.path.normpath` is the parameter
    `norm`; everything else is fixed text. */
module Script {
  import opened Text
  import opened Args
  import Log

  const AutoConfirm := "set sftp:auto-confirm yes"
  const GlobFlag := "--include-glob"

  /** The `user` command's argument: `' '.join(login)`, empty for `--anon`. */
  function LoginField(c: Credentials): string {
    match c
    case Anonymous => ""
    case Login(u, p) => u + " " + p
  }

  function PortFragment(port: string): string {
    if port != "" then "-p " + port else ""
  }

  /** One ` --include-glob P` fragment per pattern, in the order given. */
  function GlobFlags(ps: seq<string>): (r: seq<string>)
    ensures |r| == |ps|
    ensures forall i :: 0 <= i < |ps| ==> r[i] == " " + GlobFlag + " " + ps[i]
  {
    if |ps| == 0 then [] else [" " + GlobFlag + " " + ps[0]] + GlobFlags(ps[1..])
  }

  /** The fragments joined by a space; each fragment already starts with one,
      so consecutive fragments are separated by two spaces. */
  function GlobFragments(ps: seq<string>): string {
    Join(" ", GlobFlags(ps))
  }

  function ParallelFragment(p: string): string {
    if p != "" then " --parallel=" + p else ""
  }

  /** The single-letter cluster: `-vvv` then `e`, `n`, `R` when set. */
  function Cluster(a: ShellArgs): string {
    "-vvv" + a.erase + a.newer + a.reverse
  }

  function Concat(parts: seq<string>): string {
    if |parts| == 0 then "" else parts[0] + Concat(parts[1..])
  }

  lemma {:induction false} ConcatEmpty(parts: seq<string>)
    requires forall i :: 0 <= i < |parts| ==> parts[i] == ""
    ensures Concat(parts) == ""
  {
    if |parts| > 0 {
      ConcatEmpty(parts[1..]);
    }
  }

  /** Everything after the letter cluster; it does not depend on `reverse`. */
  function OptionTail(a: ShellArgs): string {
    Concat(a.longFlags) + GlobFragments(a.excGlob) + GlobFragments(a.incGlob)
      + ParallelFragment(a.parallel)
  }

  /** The argument string of the `mirror` command. Exclude patterns are
      rendered with the include flag, and they come before the include
      patterns; the parallel flag comes last. */
  function OptionString(a: ShellArgs): (r: string)
    ensures HasPrefix(r, "-vvv")
  {
    Cluster(a) + Concat(a.longFlags) + GlobFragments(a.excGlob) + GlobFragments(a.incGlob)
      + ParallelFragment(a.parallel)
  }

  /** The option string is the cluster followed by the tail. */
  lemma ClusterThenTail(a: ShellArgs)
    ensures OptionString(a) == Cluster(a) + OptionTail(a)
  {
    var c, l, ge, gi, p := Cluster(a), Concat(a.longFlags), GlobFragments(a.excGlob),
      GlobFragments(a.incGlob), ParallelFragment(a.parallel);
    ConcatAssoc(c, l, ge);
    ConcatAssoc(c, l + ge, gi);
    ConcatAssoc(c, l + ge + gi, p);
  }

  /** Transfer direction: remote to local, or local to remote on reverse. */
  function Source(a: ShellArgs, norm: string -> string): string {
    if a.reverse != "" then norm(a.local) else norm(a.remote)
  }

  function Target(a: ShellArgs, norm: string -> string): string {
    if a.reverse != "" then norm(a.remote) else norm(a.local)
  }

  function OpenLine(a: ShellArgs): string {
    "open " + (if a.secure != "" then "s" else "") + "ftp://" + a.site + " " + PortFragment(a.port)
  }

  function MirrorLine(a: ShellArgs, norm: string -> string): string {
    "mirror " + OptionString(a) + " '" + Source(a, norm) + "' '" + Target(a, norm) + "'"
  }

  /** Secure sessions skip host-key prompts unless certificates are verified. */
  predicate NeedsAutoConfirm(a: ShellArgs) {
    a.secure != "" && a.sslVerify != "yes"
  }

  /** Python `xs.insert(i, x)`. */
  function Insert(xs: seq<string>, i: nat, x: string): (r: seq<string>)
    requires i <= |xs|
    ensures |r| == |xs| + 1 && r[i] == x
    ensures forall j :: 0 <= j < i ==> r[j] == xs[j]
    ensures forall j :: i <= j < |xs| ==> r[j + 1] == xs[j]
  {
    xs[..i] + [x] + xs[i..]
  }

  /** The lines of the control script: open, user, ssl-verify, the optional
      auto-confirm inserted at index 3, mirror, exit. */
  function ScriptLines(a: ShellArgs, norm: string -> string): (r: seq<string>)
    ensures |r| == if NeedsAutoConfirm(a) then 6 else 5
    ensures r[0] == OpenLine(a)
    ensures r[1] == "user " + LoginField(a.creds)
    ensures r[2] == "set ssl:verify-certificate " + a.sslVerify
    ensures NeedsAutoConfirm(a) ==> r[3] == AutoConfirm
    ensures r[|r| - 2] == MirrorLine(a, norm)
    ensures r[|r| - 1] == "exit"
  {
    var lines := [OpenLine(a), "user " + LoginField(a.creds),
                  "set ssl:verify-certificate " + a.sslVerify, MirrorLine(a, norm), "exit"];
    if NeedsAutoConfirm(a) then Insert(lines, 3, AutoConfirm) else lines
  }

  lemma DiffersAt(x: string, y: string, i: nat)
    requires i < |x| && i < |y| && x[i] != y[i]
    ensures x != y
  {
  }

  /** The auto-confirm command is in the script exactly when the session is
      secure and certificates are not verified. */
  lemma AutoConfirmIffNeeded(a: ShellArgs, norm: string -> string)
    ensures AutoConfirm in ScriptLines(a, norm) <==> NeedsAutoConfirm(a)
  {
    var r := ScriptLines(a, norm);
    var ac := AutoConfirm;
    assert ac[0] == 's' && ac[5] == 'f' && |ac| == 25;
    DiffersAt(r[0], ac, 0);
    DiffersAt(r[1], ac, 0);
    DiffersAt(r[2], ac, 5);
    DiffersAt(r[|r| - 2], ac, 0);
    assert r[|r| - 1] != ac;
    if !NeedsAutoConfirm(a) {
      assert forall i :: 0 <= i < |r| ==> r[i] != ac;
    }
  }

  /** The text written to the script file: the lines joined by the line separator. */
  function ScriptText(a: ShellArgs, norm: string -> string, sep: string): string {
    Join(sep, ScriptLines(a, norm))
  }

  /** Who the header says is connected: the login user or `anonymous`. */
  function Who(c: Credentials): string {
    match c
    case Anonymous => "anonymous"
    case Login(u, _) => u
  }

  function Connection(a: ShellArgs): string {
    "Connected to " + a.site + " as " + Who(a.creds)
  }

  function Direction(a: ShellArgs, norm: string -> string): string {
    "Mirror " + Source(a, norm) + " to " + Target(a, norm)
  }

  /** The message of the log header, naming the same direction as the script. */
  function HeaderMessage(a: ShellArgs, norm: string -> string, sep: string): string {
    Connection(a) + sep + Direction(a, norm)
  }

  /** With a one-character separator that no line contains, the script
      file splits back into its lines. */
  lemma ScriptReadBack(a: ShellArgs, norm: string -> string, d: char)
    requires forall i :: 0 <= i < |ScriptLines(a, norm)| ==> d !in ScriptLines(a, norm)[i]
    ensures SplitOn(ScriptText(a, norm, [d]), d) == ScriptLines(a, norm)
  {
    SplitOnJoin(ScriptLines(a, norm), d);
  }

  /** With a one-character separator, the header message reads back as the
      connection line and the direction line. */
  lemma HeaderMessageReadBack(a: ShellArgs, norm: string -> string, d: char)
    requires d !in Connection(a) && d !in Direction(a, norm)
    ensures SplitOn(HeaderMessage(a, norm, [d]), d)
      == ["Connected to " + a.site + " as " + Who(a.creds), "Mirror " + Source(a, norm) + " to " + Target(a, norm)]
  {
    var x, y := Connection(a), Direction(a, norm);
    assert [x, y][1..] == [y];
    assert Join([d], [x, y]) == x + [d] + y;
    SplitOnJoin([x, y], d);
  }

  /** The two home pages the log header names, one per line. */
  const HomePage := "https://joedicastro.com"
  const MirrorPage := "https://cloud.stephanradom.de"

  function HeaderUrl(sep: string): string {
    HomePage + sep + MirrorPage
  }

  /** The header the program writes reads back, at a one-character line
      separator, as the title bar, the name-and-version line, the two home
      pages, a blank line, the connection line, the direction line and the
      closing bar. */
  lemma WrittenHeaderReadBack(h: Log.Host, name: string, a: ShellArgs, norm: string -> string, d: char)
    requires h.sep == [d] && d != ' ' && d != '='
    requires d !in h.upper("Script") && d !in name
    requires d !in Log.Version + ")" && d !in " (v"
    requires d !in HomePage && d !in MirrorPage
    requires d !in Connection(a) && d !in Direction(a, norm)
    ensures SplitOn(Log.Delta(h, name, Log.HeaderOp(HeaderUrl([d]), HeaderMessage(a, norm, [d]))), d)
      == [Log.TitleBar(h, "Script", '='), name + " (v" + Log.Version + ")", HomePage, MirrorPage, "",
          Connection(a), Direction(a, norm), Log.ClosingBar(), ""]
  {
    var url, msg := HeaderUrl([d]), HeaderMessage(a, norm, [d]);
    Log.HeaderReadBack(h, name, url, msg, d);
    UrlReadBack(d);
    HeaderMessageReadBack(a, norm, d);
    NineLines(Log.TitleBar(h, "Script", '='), name + " (v" + Log.Version + ")", HomePage, MirrorPage,
              Connection(a), Direction(a, norm), Log.ClosingBar());
  }

  lemma UrlReadBack(d: char)
    requires d !in HomePage && d !in MirrorPage
    ensures SplitOn(HeaderUrl([d]), d) == [HomePage, MirrorPage]
  {
    SplitOnAppend(HomePage, MirrorPage, d);
    SplitOnFree(HomePage, d);
    SplitOnFree(MirrorPage, d);
  }

  lemma NineLines(t: string, n: string, u: string, v: string, c: string, m: string, z: string)
    ensures [t, n] + [u, v] + [""] + [c, m] + [z, ""] == [t, n, u, v, "", c, m, z, ""]
  {
  }

  /** Toggling `--reverse` inserts `R` after the `e` and `n` letters of the
      option cluster and leaves the rest of the option string alone. */
  lemma ReverseOptions(a: ShellArgs)
    requires a.reverse == ""
    ensures OptionString(a) == "-vvv" + a.erase + a.newer + OptionTail(a)
    ensures OptionString(a.(reverse := "R")) == "-vvv" + a.erase + a.newer + "R" + OptionTail(a)
  {
    ClusterThenTail(a);
    ClusterThenTail(a.(reverse := "R"));
    assert OptionTail(a.(reverse := "R")) == OptionTail(a);
    assert "-vvv" + a.erase + a.newer + "" == "-vvv" + a.erase + a.newer;
  }

  /** Toggling `--reverse` swaps the quoted source and destination of the
      mirror command and changes no other script line. */
  lemma ReverseSwapsScript(a: ShellArgs, norm: string -> string)
    requires a.reverse == ""
    ensures var b := a.(reverse := "R");
      && |ScriptLines(b, norm)| == |ScriptLines(a, norm)|
      && (forall i :: 0 <= i < |ScriptLines(a, norm)| && i != |ScriptLines(a, norm)| - 2
            ==> ScriptLines(b, norm)[i] == ScriptLines(a, norm)[i])
      && MirrorLine(a, norm) == "mirror " + OptionString(a) + " '" + norm(a.remote) + "' '" + norm(a.local) + "'"
      && MirrorLine(b, norm) == "mirror " + OptionString(b) + " '" + norm(a.local) + "' '" + norm(a.remote) + "'"
  {
  }

  /** The header message names the same direction: toggling `--reverse`
      swaps the two directories after `Mirror`. */
  lemma ReverseSwapsHeader(a: ShellArgs, norm: string -> string, sep: string)
    requires a.reverse == ""
    ensures HeaderMessage(a, norm, sep) == Connection(a) + sep + ("Mirror " + norm(a.remote) + " to " + norm(a.local))
    ensures HeaderMessage(a.(reverse := "R"), norm, sep)
      == Connection(a) + sep + ("Mirror " + norm(a.local) + " to " + norm(a.remote))
  {
  }

  // ---------------------------------------------------------------------
  // The option string split at whitespace.

  /** A piece that is empty or begins with whitespace. */
  predicate Spaced(s: string) {
    |s| == 0 || IsSpace(s[0])
  }

  /** The tokens of the glob fragments: the flag and the pattern, per pattern. */
  function GlobTokens(ps: seq<string>): (r: seq<string>)
    ensures |r| == 2 * |ps|
  {
    if |ps| == 0 then [] else [GlobFlag, ps[0]] + GlobTokens(ps[1..])
  }

  /** Pattern `i` gives tokens `2i` and `2i + 1`: the flag, then the pattern. */
  lemma {:induction false} GlobTokensAt(ps: seq<string>, i: nat)
    requires i < |ps|
    ensures GlobTokens(ps)[2 * i] == GlobFlag && GlobTokens(ps)[2 * i + 1] == ps[i]
  {
    if i > 0 {
      GlobTokensAt(ps[1..], i - 1);
      assert 2 * i == 2 * (i - 1) + 2;
    }
  }

  /** The option names of the long flags that are set, without their leading space. */
  function FlagWords(parts: seq<string>): seq<string> {
    if |parts| == 0 then []
    else (if parts[0] == "" then [] else [parts[0][1..]]) + FlagWords(parts[1..])
  }

  function ParallelTokens(p: string): seq<string> {
    if p == "" then [] else ["--parallel=" + p]
  }

  /** Each long flag is absent or a space followed by one token. */
  predicate FlagPart(v: string) {
    v == "" || (|v| > 1 && v[0] == ' ' && Token(v[1..]))
  }

  lemma SplitSpacedToken(w: string)
    requires Token(w)
    ensures Split(" " + w) == [w]
  {
    SplitAtSpace([], ' ', w);
    assert [] + [' '] + w == " " + w;
    SplitToken(w);
  }

  lemma {:induction false} SplitFlags(parts: seq<string>)
    requires forall i :: 0 <= i < |parts| ==> FlagPart(parts[i])
    ensures Spaced(Concat(parts))
    ensures Split(Concat(parts)) == FlagWords(parts)
  {
    if |parts| > 0 {
      SplitFlags(parts[1..]);
      var p := parts[0];
      SplitBeforeSpaced(p, Concat(parts[1..]));
      if p == "" {
        assert Concat(parts) == Concat(parts[1..]);
      } else {
        assert p == " " + p[1..];
        SplitSpacedToken(p[1..]);
      }
    }
  }

  lemma FlagNamesAreTokens()
    ensures forall i :: 0 <= i < |LongFlagNames| ==> Token(LongFlagNames[i])
  {
    FirstFlagNamesAreTokens();
    MiddleFlagNamesAreTokens();
    LastFlagNamesAreTokens();
  }

  lemma FirstFlagNamesAreTokens()
    ensures forall i :: 0 <= i < 6 ==> Token(LongFlagNames[i])
  {
    PrintableToken("--delete-first");
    PrintableToken("--depth-first");
    PrintableToken("--no-empty-dirs");
    PrintableToken("--no-recursion");
    PrintableToken("--dry-run");
    PrintableToken("--use-cache");
  }

  lemma MiddleFlagNamesAreTokens()
    ensures forall i :: 6 <= i < 12 ==> Token(LongFlagNames[i])
  {
    PrintableToken("--Remove-source-files");
    PrintableToken("--only-missing");
    PrintableToken("--only-existing");
    PrintableToken("--loop");
    PrintableToken("--ignore-size");
    PrintableToken("--ignore-time");
  }

  lemma LastFlagNamesAreTokens()
    ensures forall i :: 12 <= i < 18 ==> Token(LongFlagNames[i])
  {
    PrintableToken("--no-perms");
    PrintableToken("--no-umask");
    PrintableToken("--no-symlinks");
    PrintableToken("--allow-suid");
    PrintableToken("--allow-chown");
    PrintableToken("--dereference");
  }

  lemma FromParserFlagParts(a: ShellArgs)
    requires FromParser(a)
    ensures forall i :: 0 <= i < |a.longFlags| ==> FlagPart(a.longFlags[i])
  {
    FlagNamesAreTokens();
    forall i | 0 <= i < |a.longFlags|
      ensures FlagPart(a.longFlags[i])
    {
      var v := a.longFlags[i];
      if v != "" {
        assert v == " " + LongFlagNames[i];
        assert v[1..] == LongFlagNames[i];
      }
    }
  }

  lemma SplitSpacedPair(w: string, p: string)
    requires Token(w) && Token(p)
    ensures Split(" " + w + " " + p) == [w, p]
  {
    var tail := w + [' '] + p;
    SplitAtSpace(w, ' ', p);
    SplitToken(w);
    SplitToken(p);
    SplitAtSpace([], ' ', tail);
    assert [] + [' '] + tail == " " + w + " " + p;
  }

  lemma SplitGlobFlag(p: string)
    requires Token(p)
    ensures Split(" " + GlobFlag + " " + p) == [GlobFlag, p]
  {
    PrintableToken(GlobFlag);
    SplitSpacedPair(GlobFlag, p);
  }

  lemma {:induction false} SplitGlobFragments(ps: seq<string>)
    requires forall i :: 0 <= i < |ps| ==> Token(ps[i])
    ensures Spaced(GlobFragments(ps))
    ensures Split(GlobFragments(ps)) == GlobTokens(ps)
  {
    if |ps| == 1 {
      SplitGlobFlag(ps[0]);
    } else if |ps| > 1 {
      var fs := GlobFlags(ps);
      assert fs[1..] == GlobFlags(ps[1..]);
      SplitGlobFragments(ps[1..]);
      assert GlobFragments(ps) == fs[0] + [' '] + GlobFragments(ps[1..]);
      SplitAtSpace(fs[0], ' ', GlobFragments(ps[1..]));
      SplitGlobFlag(ps[0]);
    }
  }

  lemma SplitFive(c: string, l: string, ge: string, gi: string, p: string)
    requires Token(c) && Spaced(l) && Spaced(ge) && Spaced(gi) && Spaced(p)
    ensures Split(c + l + ge + gi + p) == [c] + Split(l) + Split(ge) + Split(gi) + Split(p)
  {
    SplitToken(c);
    SplitBeforeSpaced(c, l);
    SplitBeforeSpaced(c + l, ge);
    SplitBeforeSpaced(c + l + ge, gi);
    SplitBeforeSpaced(c + l + ge + gi, p);
  }

  lemma PrintableConcat(x: string, y: string)
    requires Printable(x) && Printable(y)
    ensures Printable(x + y)
  {
  }

  lemma ClusterToken(a: ShellArgs)
    requires FromParser(a)
    ensures Token(Cluster(a))
  {
    assert Printable("-vvv") && Printable(a.erase) && Printable(a.newer) && Printable(a.reverse);
    PrintableConcat("-vvv", a.erase);
    PrintableConcat("-vvv" + a.erase, a.newer);
    PrintableConcat("-vvv" + a.erase + a.newer, a.reverse);
    PrintableToken(Cluster(a));
  }

  lemma ParallelSplit(v: string)
    requires NoSpace(v)
    ensures Spaced(ParallelFragment(v))
    ensures Split(ParallelFragment(v)) == ParallelTokens(v)
  {
    if v != "" {
      var p := "--parallel=";
      var w := p + v;
      assert Printable(p);
      PrintableToken(p);
      assert forall i :: 0 <= i < |w| ==> w[i] == if i < |p| then p[i] else v[i - |p|];
      assert Token(w);
      assert ParallelFragment(v) == " " + w;
      SplitSpacedToken(w);
    }
  }

  /** The whitespace split of the option string: the letter cluster,
      the names of the long flags that are set in their fixed order, then
      `--include-glob P` for every exclude pattern followed by every include
      pattern, each group in the order given, and the parallel flag last. */
  lemma OptionTokens(a: ShellArgs)
    requires FromParser(a)
    requires forall i :: 0 <= i < |a.excGlob| ==> Token(a.excGlob[i])
    requires forall i :: 0 <= i < |a.incGlob| ==> Token(a.incGlob[i])
    requires NoSpace(a.parallel)
    ensures Split(OptionString(a)) == [Cluster(a)] + FlagWords(a.longFlags)
      + GlobTokens(a.excGlob) + GlobTokens(a.incGlob) + ParallelTokens(a.parallel)
  {
    FromParserFlagParts(a);
    SplitFlags(a.longFlags);
    SplitGlobFragments(a.excGlob);
    SplitGlobFragments(a.incGlob);
    ParallelSplit(a.parallel);
    ClusterToken(a);
    SplitFive(Cluster(a), Concat(a.longFlags), GlobFragments(a.excGlob),
              GlobFragments(a.incGlob), ParallelFragment(a.parallel));
  }

  // ---------------------------------------------------------------------
  // Concrete renderings.

  /** With no flag, pattern or parallelism set, the option string is the
      bare `-vvv`. */
  lemma EmptyOptions(a: ShellArgs)
    requires a.erase == "" && a.newer == "" && a.reverse == "" && a.parallel == ""
    requires forall i :: 0 <= i < |a.longFlags| ==> a.longFlags[i] == ""
    requires a.excGlob == [] && a.incGlob == []
    ensures OptionString(a) == "-vvv"
  {
    ConcatEmpty(a.longFlags);
    assert Cluster(a) == "-vvv";
  }

  /** No option given on the command line: the option string is the bare `-vvv`. */
  lemma NoOptions(site: string, remote: string, local: string, creds: Credentials)
    ensures OptionString(Defaults(site, remote, local, creds)) == "-vvv"
  {
    EmptyOptions(Defaults(site, remote, local, creds));
  }

  /** One pattern renders as the include flag and the pattern; two patterns
      are two such fragments separated by two spaces. */
  lemma GlobRendering(p: string, q: string)
    ensures GlobFragments([p]) == " --include-glob " + p
    ensures GlobFragments([p, q]) == " --include-glob " + p + "  --include-glob " + q
  {
    var f := " --include-glob ";
    GlobFlagsTwo(p, q);
    JoinTwo(f + p, f + q);
    ConcatAssoc(f + p, " ", f + q);
    ConcatAssoc(" ", f, q);
    assert " " + f == "  --include-glob ";
  }

  lemma GlobFlagsTwo(p: string, q: string)
    ensures GlobFlags([p]) == [" --include-glob " + p]
    ensures GlobFlags([p, q]) == [" --include-glob " + p, " --include-glob " + q]
  {
    assert " " + GlobFlag + " " == " --include-glob ";
  }

  lemma JoinTwo(a: string, b: string)
    ensures Join(" ", [a]) == a
    ensures Join(" ", [a, b]) == a + " " + b
  {
    assert [a, b][1..] == [b];
  }

  /** The script of an anonymous session with the default certificate
      setting, no port and a bare option string. */
  lemma PlainScript(a: ShellArgs, norm: string -> string)
    requires OptionString(a) == "-vvv" && a.port == "" && a.reverse == ""
    requires a.creds == Anonymous && a.sslVerify == "no"
    ensures var r := ScriptLines(a, norm);
      && (a.secure != "" ==> |r| == 6 && r[0] == "open sftp://" + a.site + " " && r[3] == AutoConfirm)
      && (a.secure == "" ==> |r| == 5 && r[0] == "open ftp://" + a.site + " ")
      && r[1] == "user "
      && r[2] == "set ssl:verify-certificate no"
      && r[|r| - 2] == "mirror -vvv '" + norm(a.remote) + "' '" + norm(a.local) + "'"
      && r[|r| - 1] == "exit"
  {
    if a.secure != "" {
      OpenLiteral("sftp://", "s", a.site);
    } else {
      OpenLiteral("ftp://", "", a.site);
    }
    assert "mirror " + "-vvv" + " '" == "mirror -vvv '";
    assert "user " + "" == "user ";
    assert "set ssl:verify-certificate " + "no" == "set ssl:verify-certificate no";
  }

  lemma OpenLiteral(scheme: string, s: string, site: string)
    requires scheme == s + "ftp://"
    ensures "open " + s + "ftp://" + site + " " + "" == "open " + scheme + site + " "
  {
    ConcatAssoc("open ", s, "ftp://");
  }

  /** Anonymous download with no options: five lines, the open line ending
      in a space before the empty port fragment, an empty login, the default
      `no` for certificate verification, and a bare `-vvv` option string. */
  lemma AnonymousScript(site: string, remote: string, local: string, norm: string -> string)
    ensures var r := ScriptLines(Defaults(site, remote, local, Anonymous), norm);
      && |r| == 5
      && r[0] == "open ftp://" + site + " "
      && r[1] == "user "
      && r[2] == "set ssl:verify-certificate no"
      && r[3] == "mirror -vvv '" + norm(remote) + "' '" + norm(local) + "'"
      && r[4] == "exit"
  {
    var d := Defaults(site, remote, local, Anonymous);
    NoOptions(site, remote, local, Anonymous);
    assert d.secure == "";
    PlainScript(d, norm);
  }

  /** The same with `--secure`: the `s` prefix on the open line and the
      auto-confirm line right after the certificate line. */
  lemma SecureScript(site: string, remote: string, local: string, norm: string -> string)
    ensures var r := ScriptLines(Defaults(site, remote, local, Anonymous).(secure := "s"), norm);
      && |r| == 6
      && r[0] == "open sftp://" + site + " "
      && r[2] == "set ssl:verify-certificate no"
      && r[3] == AutoConfirm
      && r[4] == "mirror -vvv '" + norm(remote) + "' '" + norm(local) + "'"
      && r[5] == "exit"
  {
    var d := Defaults(site, remote, local, Anonymous);
    NoOptions(site, remote, local, Anonymous);
    assert OptionString(d.(secure := "s")) == OptionString(d);
    PlainScript(d.(secure := "s"), norm);
  }
}
