/** The namespace the `shell` sub-command's parser produces: every
    `store_const` option is kept as the string it stores ("" when absent),
    so that the renderer can concatenate them exactly as the program does. */
module Args {

  /** `--login user password` and `--anon` form a required, mutually
      exclusive group: exactly one of them is present. */
  datatype Credentials = Anonymous | Login(user: string, password: string)

  /** The e-mail options; "" and [] stand for an option that was not given. */
  datatype EmailArgs = EmailArgs(
    toAddrs: seq<string>,
    smtpConfig: string,
    smtpServer: string,
    smtpUser: string,
    smtpPass: string,
    fromAddr: string)

  datatype ShellArgs = ShellArgs(
    site: string,
    remote: string,
    local: string,
    creds: Credentials,
    port: string,             // "" when not given
    secure: string,           // "s" or ""
    sslVerify: string,        // "yes" or the default "no"
    erase: string,            // "e" or ""
    newer: string,            // "n" or ""
    parallel: string,         // N, "2" for a bare -P, or ""
    reverse: string,          // "R" or ""
    longFlags: seq<string>,   // the stored values of the options named in LongFlagNames, in that order
    excGlob: seq<string>,     // --exclude-glob patterns, in the order given
    incGlob: seq<string>,     // --include-glob patterns, in the order given
    quiet: bool,
    compress: bool,
    email: EmailArgs)

  /** The long boolean options in the order the option string concatenates
      them (`--delete-first` through `--dereference`); each stores a space
      followed by its lftp option name. */
  const LongFlagNames: seq<string> :=
    ["--delete-first", "--depth-first", "--no-empty-dirs", "--no-recursion", "--dry-run",
     "--use-cache", "--Remove-source-files", "--only-missing", "--only-existing", "--loop",
     "--ignore-size", "--ignore-time", "--no-perms", "--no-umask", "--no-symlinks",
     "--allow-suid", "--allow-chown", "--dereference"]

  /** `n` unset long flags. */
  function NoFlags(n: nat): (r: seq<string>)
    ensures |r| == n && forall i :: 0 <= i < n ==> r[i] == ""
  {
    if n == 0 then [] else [""] + NoFlags(n - 1)
  }

  const NoEmail := EmailArgs([], "", "", "", "", "")

  /** The namespace for `shell site remote local` plus credentials and no
      other option: every field at the parser's default. */
  function Defaults(site: string, remote: string, local: string, creds: Credentials): (a: ShellArgs)
    ensures a.site == site && a.remote == remote && a.local == local && a.creds == creds
    ensures a.port == "" && a.secure == "" && a.sslVerify == "no" && a.parallel == ""
    ensures a.erase == "" && a.newer == "" && a.reverse == ""
    ensures |a.longFlags| == |LongFlagNames| && forall i :: 0 <= i < |a.longFlags| ==> a.longFlags[i] == ""
    ensures a.excGlob == [] && a.incGlob == [] && a.email.toAddrs == [] && !a.compress
  {
    ShellArgs(site, remote, local, creds, "", "", "no", "", "", "", "",
              NoFlags(|LongFlagNames|), [], [], false, false, NoEmail)
  }

  /** The defaults are a namespace the parser produces: every
      constant-valued option holds its default. */
  lemma DefaultsFromParser(site: string, remote: string, local: string, creds: Credentials)
    ensures FromParser(Defaults(site, remote, local, creds))
  {
  }

  /** What the parser guarantees of a `store_const` field: it holds its
      default or its constant and nothing else. */
  predicate ConstOrEmpty(v: string, c: string) {
    v == "" || v == c
  }

  /** The values the shell parser can produce for the constant-valued options. */
  predicate FromParser(a: ShellArgs) {
    && ConstOrEmpty(a.secure, "s")
    && (a.sslVerify == "no" || a.sslVerify == "yes")
    && ConstOrEmpty(a.erase, "e")
    && ConstOrEmpty(a.newer, "n")
    && ConstOrEmpty(a.reverse, "R")
    && |a.longFlags| == |LongFlagNames|
    && forall i :: 0 <= i < |LongFlagNames| ==> ConstOrEmpty(a.longFlags[i], " " + LongFlagNames[i])
  }
}
