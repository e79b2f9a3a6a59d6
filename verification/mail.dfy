/** The e-mail side of the shell mode: the check of the e-mail options, the
    reader of the SMTP credentials file, the choice of settings handed to
    `Logger.send`, and the sender and recipient defaulting inside it. */
module Mail {
  import opened Text
  import opened Outcomes
  import opened Args

  const IgnoredNote := "When --smtp-config is provided, --smtp-server, --smtp-user, --smtp-pass, and --from-addr are ignored"
  const MissingNote := "If --smtp-config is not provided, --smtp-server, --smtp-user, --smtp-pass, and --from-addr must all be provided"
  const NoRecipientNote := "--to-addrs must be specified if any SMTP configuration is provided"
  const UnpackError := "not enough values to unpack (expected 2, got 1)"

  // ---------------------------------------------------------------------
  // Checking the e-mail options.

  /** Go on, go on after printing a note, or stop with a usage error. */
  datatype Verdict = Proceed | Warn(note: string) | Reject(note: string)

  /** Some of the four direct SMTP options is given. */
  predicate AnyDirect(e: EmailArgs) {
    e.smtpServer != "" || e.smtpUser != "" || e.smtpPass != "" || e.fromAddr != ""
  }

  /** All four direct SMTP options are given. */
  predicate AllDirect(e: EmailArgs) {
    e.smtpServer != "" && e.smtpUser != "" && e.smtpPass != "" && e.fromAddr != ""
  }

  function Validate(e: EmailArgs): (v: Verdict)
    ensures v.Reject? <==>
      (e.toAddrs == [] && (AnyDirect(e) || e.smtpConfig != ""))
      || (e.toAddrs != [] && e.smtpConfig == "" && !AllDirect(e))
    ensures v.Warn? <==> e.toAddrs != [] && e.smtpConfig != "" && AnyDirect(e)
    ensures v.Reject? && e.toAddrs == [] ==> v.note == NoRecipientNote
    ensures v.Reject? && e.toAddrs != [] ==> v.note == MissingNote
    ensures v.Warn? ==> v.note == IgnoredNote
  {
    if e.toAddrs != [] then
      if e.smtpConfig != "" then
        if AnyDirect(e) then Warn(IgnoredNote) else Proceed
      else if !AllDirect(e) then Reject(MissingNote)
      else Proceed
    else if AnyDirect(e) || e.smtpConfig != "" then Reject(NoRecipientNote)
    else Proceed
  }

  /** Without recipients nothing may be configured; without a credentials
      file everything must be. */
  lemma ValidateCases(e: EmailArgs)
    ensures e.toAddrs == [] ==> (Validate(e) == Proceed <==> !AnyDirect(e) && e.smtpConfig == "")
    ensures e.toAddrs != [] && e.smtpConfig == "" ==> (Validate(e) == Proceed <==> AllDirect(e))
    ensures e.toAddrs != [] && e.smtpConfig != "" ==> !Validate(e).Reject?
  {
  }

  // ---------------------------------------------------------------------
  // The SMTP credentials file.

  /** What one line of the file contributes. */
  datatype Line = Skip | Pair(key: string, value: string) | Malformed

  /** One pair of matching surrounding quotes removed; a lone quote
      character counts as both ends and leaves the empty string. */
  function Unquote(v: string): (r: string)
    ensures |v| >= 2 && (v[0] == v[|v| - 1] == '"' || v[0] == v[|v| - 1] == '\'') ==> r == v[1..|v| - 1]
    ensures (v == "\"" || v == "'") ==> r == ""
    ensures !(|v| >= 1 && (v[0] == v[|v| - 1] == '"' || v[0] == v[|v| - 1] == '\'')) ==> r == v
  {
    if |v| >= 1 && ((v[0] == '"' && v[|v| - 1] == '"') || (v[0] == '\'' && v[|v| - 1] == '\'')) then
      if |v| >= 2 then v[1..|v| - 1] else ""
    else v
  }

  /** A stripped line that is empty or starts with `#` is skipped; otherwise
      it is split at its first `=` into a stripped key and a stripped,
      unquoted value, and a line without `=` cannot be unpacked. */
  function ParseLine(raw: string): (l: Line)
    ensures l.Skip? <==> Strip(raw) == "" || Strip(raw)[0] == '#'
    ensures l.Malformed? <==> Strip(raw) != "" && Strip(raw)[0] != '#' && '=' !in Strip(raw)
    ensures l.Pair? ==> '=' !in l.key
  {
    var t := Strip(raw);
    if t == "" || t[0] == '#' then Skip
    else
      var i := Find(t, '=');
      if i == |t| then Malformed
      else
        StripKeepsOut(t[..i], '=');
        Pair(Strip(t[..i]), Unquote(Strip(t[i + 1..])))
  }

  function ParseAll(lines: seq<string>): (r: seq<Line>)
    ensures |r| == |lines|
    ensures forall i :: 0 <= i < |lines| ==> r[i] == ParseLine(lines[i])
  {
    if |lines| == 0 then [] else [ParseLine(lines[0])] + ParseAll(lines[1..])
  }

  /** The first `=` of `x + y` opens `y` when `x` has none. */
  lemma FindAfter(x: string, y: string)
    requires '=' !in x && |y| > 0 && y[0] == '='
    ensures Find(x + y, '=') == |x|
  {
    assert forall k :: 0 <= k < |x| ==> (x + y)[k] == x[k];
    assert (x + y)[|x|] == '=';
  }

  /** How a line with an `=` is read, once its stripped text is known. */
  lemma ParseStripped(raw: string, t: string, j: nat)
    requires Strip(raw) == t && |t| > 0 && t[0] != '#'
    requires j < |t| && Find(t, '=') == j
    ensures ParseLine(raw) == Pair(Strip(t[..j]), Unquote(Strip(t[j + 1..])))
  {
  }

  /** A line whose stripped text is `l=r`, with `l` holding no `=` and not
      starting with `#`, is read as the stripped `l` and the stripped,
      unquoted `r`; an empty `l` gives the empty key. */
  lemma ParseShape(raw: string, l: string, r: string)
    requires Strip(raw) == l + "=" + r
    requires (|l| == 0 || l[0] != '#') && '=' !in l
    ensures ParseLine(raw) == Pair(Strip(l), Unquote(Strip(r)))
  {
    var t := l + "=" + r;
    ConcatAssoc(l, "=", r);
    FindAfter(l, "=" + r);
    assert t[0] != '#' by {
      if |l| == 0 {
        assert t[0] == '=';
      } else {
        assert t[0] == l[0];
      }
    }
    assert t[..|l|] == l;
    assert t[|l| + 1..] == r;
    ParseStripped(raw, t, |l|);
  }

  /** Stripping a written line leaves the padded key, the `=` and the
      padded value. */
  lemma WrittenStrip(pre: string, key: string, mid1: string, mid2: string, value: string, post: string)
    requires AllSpace(pre) && AllSpace(post)
    requires |key| > 0 && !IsSpace(key[0])
    requires |value| > 0 && !IsSpace(value[|value| - 1])
    ensures Strip(pre + key + mid1 + "=" + mid2 + value + post) == (key + mid1) + "=" + (mid2 + value)
  {
    var l, r := key + mid1, mid2 + value;
    var core := l + "=" + r;
    calc {
      pre + key + mid1 + "=" + mid2 + value + post;
      { ConcatAssoc(pre, key, mid1); }
      pre + l + "=" + mid2 + value + post;
      { ConcatAssoc(pre, l, "="); }
      pre + (l + "=") + mid2 + value + post;
      { ConcatAssoc(pre, l + "=", mid2); }
      pre + (l + "=" + mid2) + value + post;
      { ConcatAssoc(pre, l + "=" + mid2, value); ConcatAssoc(l + "=", mid2, value); }
      pre + core + post;
    }
    assert core[0] == key[0];
    assert core[|core| - 1] == value[|value| - 1];
    StripPadded(pre, core, post);
  }

  /** Whitespace holds no `=`. */
  lemma SpaceHasNoEquals(w: string)
    requires AllSpace(w)
    ensures '=' !in w
  {
  }

  /** The key with whitespace after it, and the value with whitespace
      before it, strip back to themselves. */
  lemma SidesStrip(key: string, mid1: string, mid2: string, value: string)
    requires AllSpace(mid1) && AllSpace(mid2)
    requires |key| > 0 && !IsSpace(key[0]) && !IsSpace(key[|key| - 1]) && '=' !in key
    requires |value| > 0 && !IsSpace(value[0]) && !IsSpace(value[|value| - 1])
    ensures Strip(key + mid1) == key && Strip(mid2 + value) == value
    ensures '=' !in key + mid1
  {
    SpaceHasNoEquals(mid1);
    StripTrailing(key, mid1);
    StripLeading(mid2, value);
  }

  /** A line written as `key = value`, with any whitespace around the key,
      the `=` and the value, is read back as that key and the unquoted
      value. */
  lemma WrittenLine(pre: string, key: string, mid1: string, mid2: string, value: string, post: string)
    requires AllSpace(pre) && AllSpace(mid1) && AllSpace(mid2) && AllSpace(post)
    requires |key| > 0 && !IsSpace(key[0]) && !IsSpace(key[|key| - 1])
    requires key[0] != '#' && '=' !in key
    requires |value| > 0 && !IsSpace(value[0]) && !IsSpace(value[|value| - 1])
    ensures ParseLine(pre + key + mid1 + "=" + mid2 + value + post) == Pair(key, Unquote(value))
  {
    WrittenStrip(pre, key, mid1, mid2, value, post);
    SidesStrip(key, mid1, mid2, value);
    ParseShape(pre + key + mid1 + "=" + mid2 + value + post, key + mid1, mid2 + value);
  }

  /** A line `key=value` whose key starts and whose value ends with a
      quote-free, non-space character strips to itself. */
  lemma TrimmedLine(key: string, value: string)
    requires |key| > 0 && !IsSpace(key[0])
    requires |value| > 0 && !IsSpace(value[|value| - 1])
    ensures Strip(key + "=" + value) == key + "=" + value
  {
    var raw := key + "=" + value;
    assert raw[0] == key[0] && raw[|raw| - 1] == value[|value| - 1];
    StripTrimmed(raw);
  }

  lemma UnquoteQuoted(value: string, q: char)
    requires q == '"' || q == '\''
    requires |value| >= 2 && value[0] == q && value[|value| - 1] == q
    ensures Unquote(value) == value[1..|value| - 1]
  {
  }

  /** A value written between a pair of quotes comes back exactly, whatever
      it holds: spaces, `=` or `#` included. */
  lemma QuotedValue(key: string, value: string, q: char)
    requires |key| > 0 && !IsSpace(key[0]) && !IsSpace(key[|key| - 1])
    requires key[0] != '#' && '=' !in key
    requires q == '"' || q == '\''
    requires |value| >= 2 && value[0] == q && value[|value| - 1] == q
    ensures ParseLine(key + "=" + value) == Pair(key, value[1..|value| - 1])
  {
    TrimmedLine(key, value);
    StripTrimmed(key);
    StripTrimmed(value);
    UnquoteQuoted(value, q);
    ParseShape(key + "=" + value, key, value);
  }

  /** Quoting any value and reading it back gives the value. */
  lemma QuoteRoundTrip(key: string, v: string, q: char)
    requires |key| > 0 && !IsSpace(key[0]) && !IsSpace(key[|key| - 1])
    requires key[0] != '#' && '=' !in key
    requires q == '"' || q == '\''
    ensures ParseLine(key + "=" + ([q] + v + [q])) == Pair(key, v)
  {
    var value := [q] + v + [q];
    QuotedValue(key, value, q);
    assert value[1..|value| - 1] == v;
  }

  /** The dictionary built from parsed lines: each pair sets its key, a
      later pair overwriting an earlier one. */
  function Settings(ls: seq<Line>): (m: map<string, string>)
    ensures forall k :: k in m ==> exists i :: 0 <= i < |ls| && ls[i] == Pair(k, m[k])
    decreases |ls|
  {
    if |ls| == 0 then map[]
    else
      var m := Settings(ls[..|ls| - 1]);
      match ls[|ls| - 1]
      case Pair(k, v) => m[k := v]
      case _ => m
  }

  predicate HasMalformed(ls: seq<Line>) {
    exists i :: 0 <= i < |ls| && ls[i].Malformed?
  }

  /** The reading loop over the parsed lines: stop at the first line that
      cannot be unpacked, otherwise store each pair. */
  method Collect(ls: seq<Line>) returns (r: Result<map<string, string>>)
    ensures r.Err? <==> HasMalformed(ls)
    ensures r.Err? ==> r.error == UnpackError
    ensures r.Ok? ==> r.value == Settings(ls)
  {
    var m: map<string, string> := map[];
    var i := 0;
    while i < |ls|
      invariant 0 <= i <= |ls|
      invariant m == Settings(ls[..i])
      invariant forall j :: 0 <= j < i ==> !ls[j].Malformed?
    {
      var l := ls[i];
      assert ls[..i + 1][..i] == ls[..i];
      assert ls[..i + 1][i] == l;
      match l {
        case Skip =>
        case Pair(k, v) =>
          m := m[k := v];
        case Malformed =>
          return Err(UnpackError);
      }
      i := i + 1;
    }
    assert ls[..i] == ls;
    r := Ok(m);
  }

  /** Reading the credentials file line by line. */
  method ReadSmtpConfig(lines: seq<string>) returns (r: Result<map<string, string>>)
    ensures r.Err? <==> HasMalformed(ParseAll(lines))
    ensures r.Err? ==> r.error == UnpackError
    ensures r.Ok? ==> r.value == Settings(ParseAll(lines))
  {
    r := Collect(ParseAll(lines));
  }

  /** A key is in the dictionary exactly when some line sets it. */
  lemma {:induction false} SettingsKeys(ls: seq<Line>, k: string)
    ensures k in Settings(ls) <==> exists i :: 0 <= i < |ls| && ls[i].Pair? && ls[i].key == k
    decreases |ls|
  {
    if |ls| > 0 {
      var init := ls[..|ls| - 1];
      SettingsKeys(init, k);
      if k in Settings(init) {
        var i :| 0 <= i < |init| && init[i].Pair? && init[i].key == k;
        assert ls[i] == init[i];
      }
      if exists i :: 0 <= i < |ls| && ls[i].Pair? && ls[i].key == k {
        var i :| 0 <= i < |ls| && ls[i].Pair? && ls[i].key == k;
        if i < |ls| - 1 {
          assert init[i] == ls[i];
        }
      }
    }
  }

  /** The last line that sets a key decides its value. */
  lemma {:induction false} LastWins(ls: seq<Line>, i: nat)
    requires i < |ls| && ls[i].Pair?
    requires forall j :: i < j < |ls| ==> !(ls[j].Pair? && ls[j].key == ls[i].key)
    ensures ls[i].key in Settings(ls) && Settings(ls)[ls[i].key] == ls[i].value
    decreases |ls|
  {
    var init := ls[..|ls| - 1];
    if i < |ls| - 1 {
      assert init[i] == ls[i];
      forall j | i < j < |init|
        ensures !(init[j].Pair? && init[j].key == init[i].key)
      {
        assert init[j] == ls[j];
      }
      LastWins(init, i);
    }
  }

  // ---------------------------------------------------------------------
  // What `send` is called with.

  /** The mail settings: sender, recipients, server, user, password.
      An empty string stands for `None`. */
  datatype MailSettings = MailSettings(from: string, to: seq<string>, server: string,
                                       user: string, pass: string)

  /** `dict.get` with `None` as the empty string. */
  function Get(m: map<string, string>, k: string): string {
    if k in m then m[k] else ""
  }

  /** With a credentials file its `from`, `server`, `user` and `pass` keys
      are used and the direct options ignored; otherwise the direct options. */
  function Chosen(e: EmailArgs, file: map<string, string>): (s: MailSettings)
    ensures s.to == e.toAddrs
    ensures e.smtpConfig != "" ==>
              (s.server == Get(file, "server") && s.from == Get(file, "from")
               && s.user == Get(file, "user") && s.pass == Get(file, "pass"))
    ensures e.smtpConfig == "" ==>
              (s.server == e.smtpServer && s.from == e.fromAddr
               && s.user == e.smtpUser && s.pass == e.smtpPass)
  {
    if e.smtpConfig != "" then
      MailSettings(Get(file, "from"), e.toAddrs, Get(file, "server"), Get(file, "user"), Get(file, "pass"))
    else
      MailSettings(e.fromAddr, e.toAddrs, e.smtpServer, e.smtpUser, e.smtpPass)
  }

  /** With a credentials file the direct server, user, password and sender
      options make no difference; without one the file's contents make
      none. */
  lemma ChosenSources(e1: EmailArgs, e2: EmailArgs, f1: map<string, string>, f2: map<string, string>)
    ensures e1.smtpConfig != "" && e2.smtpConfig != "" && e1.toAddrs == e2.toAddrs
            ==> Chosen(e1, f1) == Chosen(e2, f1)
    ensures e1.smtpConfig == "" ==> Chosen(e1, f1) == Chosen(e1, f2)
  {
  }

  /** With a credentials file, the server handed to `send` is the value on
      the last line of the file that sets `server`. */
  lemma ChosenServerFromFile(e: EmailArgs, ls: seq<Line>, i: nat)
    requires e.smtpConfig != ""
    requires i < |ls| && ls[i].Pair? && ls[i].key == "server"
    requires forall j :: i < j < |ls| ==> !(ls[j].Pair? && ls[j].key == "server")
    ensures Chosen(e, Settings(ls)).server == ls[i].value
  {
    LastWins(ls, i);
  }

  /** When the options passed the check and no credentials file is named,
      every direct setting handed to `send` is present. */
  lemma CheckedDirectSettings(e: EmailArgs, file: map<string, string>)
    requires e.toAddrs != [] && e.smtpConfig == "" && !Validate(e).Reject?
    ensures var s := Chosen(e, file);
      s.from != "" && s.server != "" && s.user != "" && s.pass != ""
  {
  }

  /** The envelope `send` builds: the sender and recipient list fall back
      to `user@host`; the `To` header is the recipients joined by `, `. */
  datatype Envelope = Envelope(sender: string, recipients: seq<string>, toHeader: string)

  function Address(user: string, host: string): (r: string)
    ensures '@' in r
  {
    assert (user + "@" + host)[|user|] == '@';
    user + "@" + host
  }

  function MakeEnvelope(from: string, to: seq<string>, user: string, host: string): (r: Envelope)
    ensures r.sender != "" && |r.recipients| >= 1
    ensures from != "" ==> r.sender == from
    ensures from == "" ==> r.sender == Address(user, host)
    ensures to != [] ==> r.recipients == to
    ensures to == [] ==> r.recipients == [Address(user, host)]
  {
    var sender := if from != "" then from else Address(user, host);
    var recipients := if to != [] then to else [Address(user, host)];
    Envelope(sender, recipients, Join(", ", recipients))
  }

  /** A single recipient is the whole `To` header. */
  lemma OneRecipientHeader(from: string, a: string, user: string, host: string)
    ensures MakeEnvelope(from, [a], user, host).toHeader == a
  {
  }

  /** Defaulting twice changes nothing. */
  lemma EnvelopeStable(from: string, to: seq<string>, user: string, host: string)
    ensures var r := MakeEnvelope(from, to, user, host);
      MakeEnvelope(r.sender, r.recipients, user, host) == r
  {
  }
}
