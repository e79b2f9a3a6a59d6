/** The `Logger` of the mirror script: an append-only text log built from
    titled blocks, titled lists, free text, time stamps and a header.
    The host's line separator, `str.upper` and the UTF-8 decoding of
    subprocess output are supplied as a `Host` value. */
module Log {
  import opened Text
  import opened Outcomes

  const Version := "0.16.2"
  const Width := 80
  const BadFormat := "Unsupported format specifier"

  type Byte = b: int | 0 <= b < 256

  /** Library behaviour the log text depends on: `os.linesep`, `str.upper`
      and `bytes.decode('utf-8', errors='replace')`. */
  datatype Host = Host(sep: string, upper: string -> string, decode: seq<Byte> -> string)

  /** Content of `block` and `free`: one string or a list of lines. */
  datatype Content = Str(s: string) | Lines(lines: seq<string>)

  /** Content of `list`: a string, a list of byte lines, or one byte string. */
  datatype Listed = ListStr(s: string) | ByteLines(raw: seq<seq<Byte>>) | Bytes(b: seq<Byte>)

  datatype Logger = Logger(log: string, scriptName: string)

  /** Python truthiness: an empty string or list is false. */
  predicate Truthy(c: Content) {
    match c
    case Str(s) => s != ""
    case Lines(ls) => ls != []
  }

  predicate ListTruthy(c: Listed) {
    match c
    case ListStr(s) => s != ""
    case ByteLines(raw) => raw != []
    case Bytes(b) => b != []
  }

  /** `name.split('.')[0]`: the file name up to its first dot. */
  function ScriptName(file: string): (r: string)
    ensures HasPrefix(file, r)
    ensures '.' !in r
    ensures |r| < |file| ==> file[|r|] == '.'
  {
    file[..Find(file, '.')]
  }

  /** A fresh logger for the script file `file`: an empty log. */
  function New(file: string): (l: Logger)
    ensures l.log == ""
    ensures HasPrefix(file, l.scriptName) && '.' !in l.scriptName
    ensures |l.scriptName| < |file| ==> file[|l.scriptName|] == '.'
  {
    Logger("", ScriptName(file))
  }

  /** The log file is named after the script. */
  function FileName(l: Logger): (r: string)
    ensures HasSuffix(r, ".log") && HasPrefix(r, l.scriptName) && |r| == |l.scriptName| + 4
  {
    l.scriptName + ".log"
  }

  /** `__len__`. */
  function Len(l: Logger): (n: nat)
    ensures n == |l.log|
  {
    |l.log|
  }

  /** The title line: the upper-cased title, a space and a bar of `fill`
      sized by the title's original length. */
  function TitleBar(h: Host, title: string, fill: char): string {
    h.upper(title) + " " + Repeat(fill, Width - |title|)
  }

  function ClosingBar(): string {
    Repeat('=', Width)
  }

  function ContentText(sep: string, c: Content): string {
    match c
    case Str(s) => s + sep
    case Lines(ls) => Join(sep, ls) + sep
  }

  function Decoded(h: Host, raw: seq<seq<Byte>>): (r: seq<string>)
    ensures |r| == |raw|
    ensures forall i :: 0 <= i < |raw| ==> r[i] == h.decode(raw[i])
  {
    if |raw| == 0 then [] else [h.decode(raw[0])] + Decoded(h, raw[1..])
  }

  function ListedText(h: Host, c: Listed): string {
    match c
    case ListStr(s) => s + h.sep
    case ByteLines(raw) => Join(h.sep, Decoded(h, raw)) + h.sep
    case Bytes(b) => h.decode(b) + h.sep
  }

  /** What `block` appends: title line, content, closing bar. */
  function BlockText(h: Host, title: string, c: Content): (d: string)
    ensures Truthy(c) <==> d != ""
  {
    if Truthy(c) then TitleBar(h, title, '=') + h.sep + ContentText(h.sep, c) + ClosingBar() + h.sep
    else ""
  }

  /** What `list` appends: an underscore title line and the content, with no closing bar. */
  function ListText(h: Host, title: string, c: Listed): (d: string)
    ensures ListTruthy(c) <==> d != ""
  {
    if ListTruthy(c) then TitleBar(h, title, '_') + h.sep + ListedText(h, c) else ""
  }

  /** What `free` appends: string content and two separators; anything else is ignored. */
  function FreeText(sep: string, c: Content): (d: string)
    ensures c.Lines? ==> d == ""
    ensures c.Str? ==> HasPrefix(d, c.s) && HasSuffix(d, sep + sep) && |d| == |c.s| + 2 * |sep|
  {
    match c
    case Str(s) => s + sep + sep
    case Lines(_) => ""
  }

  /** The content line of `time`: the clock reading right-justified to the width. */
  function TimeLine(now: string): (r: string)
    ensures HasSuffix(r, now) && |r| == if |now| >= Width then |now| else Width
    ensures forall i :: 0 <= i < |r| - |now| ==> r[i] == ' '
  {
    RJust(now, Width)
  }

  /** The lines of the header block: name and version, the url, a blank line, the message. */
  function HeaderLines(scriptName: string, url: string, msg: string): (r: seq<string>)
    ensures |r| == 4 && r[1] == url && r[2] == "" && r[3] == msg
    ensures HasPrefix(r[0], scriptName) && r[0][|scriptName|..] == " (v" + Version + ")"
  {
    [scriptName + " (v" + Version + ")", url, "", msg]
  }

  // ---------------------------------------------------------------------
  // The operations. Each one appends to the log and nothing else.

  function Block(h: Host, l: Logger, title: string, c: Content): (r: Logger)
    ensures r.scriptName == l.scriptName && HasPrefix(r.log, l.log)
    ensures r.log == l.log <==> !Truthy(c)
  {
    l.(log := l.log + BlockText(h, title, c))
  }

  function List(h: Host, l: Logger, title: string, c: Listed): (r: Logger)
    ensures r.scriptName == l.scriptName && HasPrefix(r.log, l.log)
    ensures r.log == l.log <==> !ListTruthy(c)
  {
    l.(log := l.log + ListText(h, title, c))
  }

  function Free(h: Host, l: Logger, c: Content): (r: Logger)
    ensures r.scriptName == l.scriptName && HasPrefix(r.log, l.log)
    ensures c.Lines? ==> r == l
    ensures c.Str? ==> HasPrefix(r.log, l.log + c.s) && HasSuffix(r.log, h.sep + h.sep)
    ensures c.Str? ==> |r.log| == |l.log| + |c.s| + 2 * |h.sep|
  {
    l.(log := l.log + FreeText(h.sep, c))
  }

  /** `time(title)` with the formatted clock reading `now`: always appends. */
  function Time(h: Host, l: Logger, title: string, now: string): (r: Logger)
    ensures r.scriptName == l.scriptName && HasPrefix(r.log, l.log) && |r.log| > |l.log|
  {
    Block(h, l, title, Str(TimeLine(now)))
  }

  /** `header(url, msg)`: a block titled `Script`; always appends. */
  function Header(h: Host, l: Logger, url: string, msg: string): (r: Logger)
    ensures r.scriptName == l.scriptName && HasPrefix(r.log, l.log) && |r.log| > |l.log|
  {
    Block(h, l, "Script", Lines(HeaderLines(l.scriptName, url, msg)))
  }

  /** `format(log, spec)`: the log and a separator for `block` and `list`,
      a `ValueError` otherwise. */
  function Format(h: Host, l: Logger, spec: string): (r: Result<string>)
    ensures r.Ok? <==> spec == "block" || spec == "list"
    ensures r.Ok? ==> HasPrefix(r.value, l.log) && HasSuffix(r.value, h.sep)
    ensures r.Ok? ==> |r.value| == |l.log| + |h.sep|
    ensures r.Err? ==> r.error == BadFormat
  {
    if spec == "block" || spec == "list" then Ok(l.log + h.sep) else Err(BadFormat)
  }

  // ---------------------------------------------------------------------
  // Logging as a sequence of operations.

  datatype Op =
    | BlockOp(title: string, content: Content)
    | ListOp(title: string, listed: Listed)
    | FreeOp(free: Content)
    | TimeOp(title: string, now: string)
    | HeaderOp(url: string, msg: string)

  function Apply(h: Host, l: Logger, op: Op): (r: Logger)
    ensures r.scriptName == l.scriptName && HasPrefix(r.log, l.log)
  {
    match op
    case BlockOp(t, c) => Block(h, l, t, c)
    case ListOp(t, c) => List(h, l, t, c)
    case FreeOp(c) => Free(h, l, c)
    case TimeOp(t, now) => Time(h, l, t, now)
    case HeaderOp(url, msg) => Header(h, l, url, msg)
  }

  function ApplyAll(h: Host, l: Logger, ops: seq<Op>): (r: Logger)
    ensures r.scriptName == l.scriptName && HasPrefix(r.log, l.log)
    decreases |ops|
  {
    if |ops| == 0 then l else ApplyAll(h, Apply(h, l, ops[0]), ops[1..])
  }

  /** The text an operation appends, which depends on the script name but
      not on what was logged before. */
  function Delta(h: Host, name: string, op: Op): string {
    match op
    case BlockOp(t, c) => BlockText(h, t, c)
    case ListOp(t, c) => ListText(h, t, c)
    case FreeOp(c) => FreeText(h.sep, c)
    case TimeOp(t, now) => BlockText(h, t, Str(TimeLine(now)))
    case HeaderOp(url, msg) => BlockText(h, "Script", Lines(HeaderLines(name, url, msg)))
  }

  function Deltas(h: Host, name: string, ops: seq<Op>): string
    decreases |ops|
  {
    if |ops| == 0 then "" else Delta(h, name, ops[0]) + Deltas(h, name, ops[1..])
  }

  lemma ApplyAppendsDelta(h: Host, l: Logger, op: Op)
    ensures Apply(h, l, op).log == l.log + Delta(h, l.scriptName, op)
  {
  }

  /** Replaying operations appends the concatenation of their texts to
      whatever was logged before. */
  lemma {:induction false} Replay(h: Host, l: Logger, ops: seq<Op>)
    ensures ApplyAll(h, l, ops).log == l.log + Deltas(h, l.scriptName, ops)
    decreases |ops|
  {
    if |ops| > 0 {
      var l1 := Apply(h, l, ops[0]);
      ApplyAppendsDelta(h, l, ops[0]);
      Replay(h, l1, ops[1..]);
      ConcatAssoc(l.log, Delta(h, l.scriptName, ops[0]), Deltas(h, l.scriptName, ops[1..]));
    }
  }

  /** The calls that leave the log as it was: a `block` or `list` of falsy
      content, a `free` of a list, and a `free` of the empty string when the
      separator is empty. `time` and `header` always write. */
  predicate Skipped(sep: string, op: Op) {
    match op
    case BlockOp(_, c) => !Truthy(c)
    case ListOp(_, c) => !ListTruthy(c)
    case FreeOp(c) => c.Lines? || (c.s == "" && sep == "")
    case _ => false
  }

  /** `len(log)` grows by the length of the text a call appends, and stays
      the same exactly for the calls that are skipped. */
  lemma LenAfter(h: Host, l: Logger, op: Op)
    ensures Len(Apply(h, l, op)) == Len(l) + |Delta(h, l.scriptName, op)|
    ensures Len(Apply(h, l, op)) == Len(l) <==> Skipped(h.sep, op)
  {
    ApplyAppendsDelta(h, l, op);
    match op
    case TimeOp(t, now) =>
      assert Truthy(Str(TimeLine(now)));
    case HeaderOp(url, msg) =>
      assert Truthy(Lines(HeaderLines(l.scriptName, url, msg)));
    case _ =>
  }

  /** `format(log, 'block')` and `format(log, 'list')` give the same text:
      everything the calls appended to the fresh or earlier log, followed by
      one separator. */
  lemma FormatAfter(h: Host, l: Logger, ops: seq<Op>, spec: string)
    requires spec == "block" || spec == "list"
    ensures Format(h, ApplyAll(h, l, ops), spec) == Ok(l.log + Deltas(h, l.scriptName, ops) + h.sep)
    ensures Format(h, l, "block") == Format(h, l, "list")
  {
    Replay(h, l, ops);
  }

  /** Two loggers of the same script that receive the same operations end
      up with logs that differ only in what they held before. */
  lemma SameOpsSameSuffix(h: Host, l1: Logger, l2: Logger, ops: seq<Op>)
    requires l1.scriptName == l2.scriptName
    ensures ApplyAll(h, l1, ops).log[|l1.log|..] == ApplyAll(h, l2, ops).log[|l2.log|..]
  {
    Replay(h, l1, ops);
    Replay(h, l2, ops);
  }

  // ---------------------------------------------------------------------
  // Reading a block back line by line.

  /** The lines a non-empty block shows. */
  function BlockLines(h: Host, title: string, c: Content): seq<string> {
    [TitleBar(h, title, '=')]
      + (match c case Str(s) => [s] case Lines(ls) => ls)
      + [ClosingBar()]
  }

  lemma JoinCons(sep: string, x: string, xs: seq<string>)
    requires |xs| >= 1
    ensures Join(sep, [x] + xs) == x + sep + Join(sep, xs)
  {
    assert ([x] + xs)[1..] == xs;
  }

  /** A non-empty block is its lines, each ended by the separator. */
  lemma BlockIsLines(h: Host, title: string, c: Content)
    requires Truthy(c)
    ensures BlockText(h, title, c) == Join(h.sep, BlockLines(h, title, c) + [""])
  {
    var sep, t, z := h.sep, TitleBar(h, title, '='), ClosingBar();
    var body := match c case Str(s) => [s] case Lines(ls) => ls;
    assert |body| >= 1;
    assert ContentText(sep, c) == Join(sep, body) + sep;
    JoinAppend(sep, body, [z]);
    JoinCons(sep, t, body + [z]);
    assert [t] + (body + [z]) == [t] + body + [z];
    var all := [t] + body + [z];
    JoinAppend(sep, all, [""]);
    calc {
      BlockText(h, title, c);
      t + sep + (Join(sep, body) + sep) + z + sep;
      { ConcatAssoc(t + sep, Join(sep, body) + sep, z); }
      t + sep + (Join(sep, body) + sep + z) + sep;
      t + sep + Join(sep, body + [z]) + sep;
      Join(sep, all) + sep;
      Join(sep, all + [""]);
    }
  }

  /** With a one-character separator that no line contains, splitting the
      appended text at the separator recovers the title bar, the content
      lines, the closing bar and a final empty piece. */
  lemma BlockReadBack(h: Host, title: string, c: Content, d: char)
    requires Truthy(c) && h.sep == [d]
    requires forall i :: 0 <= i < |BlockLines(h, title, c)| ==> d !in BlockLines(h, title, c)[i]
    ensures SplitOn(BlockText(h, title, c), d) == BlockLines(h, title, c) + [""]
  {
    BlockIsLines(h, title, c);
    var ls := BlockLines(h, title, c) + [""];
    assert forall i :: 0 <= i < |ls| ==> d !in ls[i];
    SplitOnJoin(ls, d);
  }

  /** A title line followed by lines, each ended by the separator. */
  lemma TitledJoin(sep: string, t: string, body: seq<string>)
    requires |body| >= 1
    ensures t + sep + (Join(sep, body) + sep) == Join(sep, [t] + body + [""])
  {
    JoinAppend(sep, body, [""]);
    assert Join(sep, [""]) == "";
    JoinCons(sep, t, body + [""]);
    assert [t] + (body + [""]) == [t] + body + [""];
  }

  /** The content lines of `list`: the string, the decoded byte lines, or
      the decoded byte string. */
  function ListBody(h: Host, c: Listed): seq<string> {
    match c
    case ListStr(s) => [s]
    case ByteLines(raw) => Decoded(h, raw)
    case Bytes(b) => [h.decode(b)]
  }

  /** The lines a non-empty list shows: the underscore title bar and the
      content, with no closing bar. */
  function ListLines(h: Host, title: string, c: Listed): seq<string> {
    [TitleBar(h, title, '_')] + ListBody(h, c)
  }

  /** `list` appends its lines, each ended by the separator, when the
      content is truthy, and nothing otherwise. */
  lemma ListIsLines(h: Host, l: Logger, title: string, c: Listed)
    ensures ListTruthy(c) ==> List(h, l, title, c).log == l.log + Join(h.sep, ListLines(h, title, c) + [""])
    ensures !ListTruthy(c) ==> List(h, l, title, c) == l
  {
    if ListTruthy(c) {
      var body := ListBody(h, c);
      assert |body| >= 1;
      assert ListedText(h, c) == Join(h.sep, body) + h.sep;
      TitledJoin(h.sep, TitleBar(h, title, '_'), body);
    }
  }

  /** With a one-character separator that no line contains, splitting the
      appended list text at the separator recovers the title bar, the
      content lines and a final empty piece. */
  lemma ListReadBack(h: Host, l: Logger, title: string, c: Listed, d: char)
    requires ListTruthy(c) && h.sep == [d]
    requires forall i :: 0 <= i < |ListLines(h, title, c)| ==> d !in ListLines(h, title, c)[i]
    ensures SplitOn(ListText(h, title, c), d) == ListLines(h, title, c) + [""]
  {
    ListIsLines(h, l, title, c);
    var ls := ListLines(h, title, c) + [""];
    assert forall i :: 0 <= i < |ls| ==> d !in ls[i];
    SplitOnJoin(ls, d);
  }

  /** Free text reads back as the text followed by two empty lines. */
  lemma FreeReadBack(s: string, d: char)
    requires d !in s
    ensures SplitOn(FreeText([d], Str(s)), d) == [s, "", ""]
  {
    assert Join([d], ["", ""]) == [d];
    assert ["", "", ""][1..] == ["", ""];
    assert [s, "", ""][1..] == ["", ""];
    assert Join([d], [s, "", ""]) == s + [d] + [d];
    SplitOnJoin([s, "", ""], d);
  }

  /** A non-empty string block shows the same text as a one-line list
      block; an empty string is skipped while a list holding one empty line
      is not. */
  lemma StrIsOneLine(h: Host, title: string, s: string)
    ensures s != "" ==> BlockText(h, title, Str(s)) == BlockText(h, title, Lines([s]))
    ensures s == "" ==> BlockText(h, title, Str(s)) == "" != BlockText(h, title, Lines([s]))
  {
    assert Join(h.sep, [s]) == s;
  }

  /** The time block reads back as its title bar, the right-justified clock
      reading and the closing bar. */
  lemma TimeReadBack(h: Host, title: string, now: string, d: char)
    requires h.sep == [d] && d !in h.upper(title) && d !in now && d != ' ' && d != '='
    ensures SplitOn(Delta(h, "", TimeOp(title, now)), d)
      == [TitleBar(h, title, '='), TimeLine(now), ClosingBar(), ""]
  {
    var tl := TimeLine(now);
    JustifiedFree(now, d);
    BarFree(h, title, '=', d);
    var ls := BlockLines(h, title, Str(tl));
    assert ls == [TitleBar(h, title, '='), tl, ClosingBar()];
    BlockReadBack(h, title, Str(tl), d);
  }

  /** Right-justifying adds only spaces. */
  lemma JustifiedFree(now: string, d: char)
    requires d !in now && d != ' '
    ensures d !in TimeLine(now)
  {
    var tl := TimeLine(now);
    assert forall i :: 0 <= i < |tl| - |now| ==> tl[i] == ' ';
    assert tl[|tl| - |now|..] == now;
    forall i | 0 <= i < |tl| ensures tl[i] != d {
      if i >= |tl| - |now| {
        assert tl[i] == now[i - (|tl| - |now|)];
      }
    }
  }

  /** A title bar holds the separator only if the upper-cased title does. */
  lemma BarFree(h: Host, title: string, fill: char, d: char)
    requires d !in h.upper(title) && d != ' ' && d != fill
    ensures d !in TitleBar(h, title, fill)
    ensures d != '=' ==> d !in ClosingBar()
  {
    var u, bar := h.upper(title), Repeat(fill, Width - |title|);
    var t := TitleBar(h, title, fill);
    assert t == u + " " + bar;
    forall i | 0 <= i < |t| ensures t[i] != d {
      if i < |u| {
        assert t[i] == u[i];
      } else if i > |u| {
        assert t[i] == bar[i - |u| - 1];
      }
    }
  }

  /** The header block reads back as its title bar, the name-and-version
      line, the url, a blank line, the message and the closing bar. */
  lemma HeaderReadBack(h: Host, name: string, url: string, msg: string, d: char)
    requires h.sep == [d] && d != ' ' && d != '='
    requires d !in h.upper("Script") && d !in name
    requires d !in Version + ")" && d !in " (v"
    ensures SplitOn(Delta(h, name, HeaderOp(url, msg)), d)
      == [TitleBar(h, "Script", '='), name + " (v" + Version + ")"]
         + SplitOn(url, d) + [""] + SplitOn(msg, d) + [ClosingBar(), ""]
  {
    var hl := HeaderLines(name, url, msg);
    var t, first, z := TitleBar(h, "Script", '='), name + " (v" + Version + ")", ClosingBar();
    NameLineFree(name, d);
    BarFree(h, "Script", '=', d);
    var ls := BlockLines(h, "Script", Lines(hl)) + [""];
    assert ls == [t, first, url, "", msg, z, ""];
    BlockIsLines(h, "Script", Lines(hl));
    SplitOnJoinEach(ls, d);
    HeaderPieces(t, first, url, "", msg, z, "", d);
  }

  /** Seven lines of which only the third and the fifth may hold the
      separator: those two break into pieces, every other line is one. */
  lemma HeaderPieces(a: string, b: string, url: string, c: string, msg: string, e: string,
                     f: string, d: char)
    requires d !in a && d !in b && d !in c && d !in e && d !in f
    ensures SplitEach([a, b, url, c, msg, e, f], d)
      == [a, b] + SplitOn(url, d) + [c] + SplitOn(msg, d) + [e, f]
  {
    var front, back := [a, b, url], [c, msg, e, f];
    assert [a, b, url, c, msg, e, f] == front + back;
    SplitEachAppend(front, back, d);
    FrontPieces(a, b, url, d);
    BackPieces(c, msg, e, f, d);
  }

  lemma FrontPieces(a: string, b: string, url: string, d: char)
    requires d !in a && d !in b
    ensures SplitEach([a, b, url], d) == [a, b] + SplitOn(url, d)
  {
    assert [a, b, url] == [a, b] + [url];
    SplitEachAppend([a, b], [url], d);
    FreePieces(a, b, d);
    SplitEachOne(url, d);
  }

  lemma BackPieces(c: string, msg: string, e: string, f: string, d: char)
    requires d !in c && d !in e && d !in f
    ensures SplitEach([c, msg, e, f], d) == [c] + SplitOn(msg, d) + [e, f]
  {
    assert [c, msg, e, f] == [c, msg] + [e, f];
    SplitEachAppend([c, msg], [e, f], d);
    FreePieces(e, f, d);
    assert [c, msg] == [c] + [msg];
    SplitEachAppend([c], [msg], d);
    SplitEachOne(c, d);
    SplitEachOne(msg, d);
    SplitOnFree(c, d);
  }

  lemma FreePieces(a: string, b: string, d: char)
    requires d !in a && d !in b
    ensures SplitEach([a, b], d) == [a, b]
  {
    SplitOnFree(a, d);
    SplitOnFree(b, d);
    SplitEachAppend([a], [b], d);
    assert [a] + [b] == [a, b];
    SplitEachOne(a, d);
    SplitEachOne(b, d);
  }

  /** The name-and-version line holds the separator only if the name does. */
  lemma NameLineFree(name: string, d: char)
    requires d !in name && d !in Version + ")" && d !in " (v"
    ensures d !in name + " (v" + Version + ")"
  {
    var first := name + " (v" + Version + ")";
    assert first == name + " (v" + (Version + ")");
    forall i | 0 <= i < |first| ensures first[i] != d {
      if i < |name| {
        assert first[i] == name[i];
      } else if i < |name| + 3 {
        assert first[i] == " (v"[i - |name|];
      } else {
        assert first[i] == (Version + ")")[i - |name| - 3];
      }
    }
  }

  /** The title bar of `Script` has 74 fill characters. */
  lemma ScriptBarWidth(h: Host)
    ensures |TitleBar(h, "Script", '=')| == |h.upper("Script")| + 1 + 74
  {
    assert |"Script"| == 6;
  }

  /** A title longer than the width gets no fill at all. */
  lemma LongTitleNoFill(h: Host, title: string, fill: char)
    requires |title| >= Width
    ensures TitleBar(h, title, fill) == h.upper(title) + " "
  {
  }
}
