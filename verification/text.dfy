/** String primitives with the semantics of the Python built-ins the program
    relies on: `str.join`, `c * n`, right justification (`{:>w}`),
    `str.isspace`, `str.strip` and argument-less `str.split`. */
module Text {

  predicate HasPrefix(s: string, p: string) {
    |p| <= |s| && s[..|p|] == p
  }

  predicate HasSuffix(s: string, p: string) {
    |p| <= |s| && s[|s| - |p|..] == p
  }

  /** Python `c * n`: `n` copies of `c`, empty when `n` is zero or negative. */
  function Repeat(c: char, n: int): (r: string)
    ensures |r| == if n <= 0 then 0 else n
    ensures forall i :: 0 <= i < |r| ==> r[i] == c
    decreases n
  {
    if n <= 0 then [] else [c] + Repeat(c, n - 1)
  }

  /** Concatenation regrouped. */
  lemma ConcatAssoc<T>(x: seq<T>, y: seq<T>, z: seq<T>)
    ensures (x + y) + z == x + (y + z)
  {
  }

  /** Python `sep.join(parts)`. */
  function Join(sep: string, parts: seq<string>): string
  {
    if |parts| == 0 then ""
    else if |parts| == 1 then parts[0]
    else parts[0] + sep + Join(sep, parts[1..])
  }

  /** Python `f"{s:>width}"`: pad on the left with spaces up to `width`;
      a longer string is kept whole. */
  function RJust(s: string, width: int): (r: string)
    ensures |r| == if |s| >= width then |s| else width
    ensures HasSuffix(r, s)
    ensures forall i :: 0 <= i < |r| - |s| ==> r[i] == ' '
  {
    if |s| >= width then s else Repeat(' ', width - |s|) + s
  }

  /** Python `str.isspace` on one character (the Unicode whitespace set). */
  predicate IsSpace(c: char) {
    var k := c as int;
    || (9 <= k <= 13) || (28 <= k <= 32) || k == 0x85 || k == 0xA0 || k == 0x1680
    || (0x2000 <= k <= 0x200A) || k == 0x2028 || k == 0x2029 || k == 0x202F
    || k == 0x205F || k == 0x3000
  }

  predicate AllSpace(s: string) {
    forall i :: 0 <= i < |s| ==> IsSpace(s[i])
  }

  predicate NoSpace(s: string) {
    forall i :: 0 <= i < |s| ==> !IsSpace(s[i])
  }

  /** A token of `str.split()`: non-empty and free of whitespace. */
  predicate Token(w: string) {
    |w| > 0 && NoSpace(w)
  }

  /** Printable ASCII other than the space. */
  predicate Printable(w: string) {
    forall i :: 0 <= i < |w| ==> '!' <= w[i] <= '~'
  }

  lemma PrintableToken(w: string)
    requires |w| > 0 && Printable(w)
    ensures Token(w)
  {
  }

  /** `s` with its leading whitespace removed. */
  function TrimLeft(s: string): (r: string)
    ensures |r| <= |s| && r == s[|s| - |r|..]
    ensures AllSpace(s[..|s| - |r|])
    ensures |r| == 0 || !IsSpace(r[0])
  {
    if |s| > 0 && IsSpace(s[0]) then TrimLeft(s[1..]) else s
  }

  /** `s` with its trailing whitespace removed. */
  function TrimRight(s: string): (r: string)
    ensures |r| <= |s| && r == s[..|r|]
    ensures AllSpace(s[|r|..])
    ensures |r| == 0 || !IsSpace(r[|r| - 1])
  {
    if |s| > 0 && IsSpace(s[|s| - 1]) then TrimRight(s[..|s| - 1]) else s
  }

  /** Python `s.strip()`: whitespace cut from both ends. */
  function Strip(s: string): (r: string)
    ensures |r| == 0 || (!IsSpace(r[0]) && !IsSpace(r[|r| - 1]))
  {
    TrimRight(TrimLeft(s))
  }

  lemma SliceKeepsOut(s: string, lo: nat, hi: nat, d: char)
    requires lo <= hi <= |s| && d !in s
    ensures d !in s[lo..hi]
  {
    var w := s[lo..hi];
    forall k | 0 <= k < |w|
      ensures w[k] != d
    {
      assert w[k] == s[lo + k];
    }
  }

  /** Stripping adds no character: one missing from `s` is missing from
      `Strip(s)`. */
  lemma StripKeepsOut(s: string, d: char)
    requires d !in s
    ensures d !in Strip(s)
  {
    var t := TrimLeft(s);
    SliceKeepsOut(s, |s| - |t|, |s|, d);
    SliceKeepsOut(t, 0, |TrimRight(t)|, d);
  }

  /** Cutting leading whitespace off `pre + u` leaves exactly `u` when `u`
      does not itself start with whitespace. */
  lemma {:induction false} TrimLeftPadded(pre: string, u: string)
    requires AllSpace(pre)
    requires |u| == 0 || !IsSpace(u[0])
    ensures TrimLeft(pre + u) == u
    decreases |pre|
  {
    if |pre| == 0 {
      assert pre + u == u;
    } else {
      var s := pre + u;
      assert s[0] == pre[0] && IsSpace(pre[0]);
      assert s[1..] == pre[1..] + u;
      assert AllSpace(pre[1..]) by {
        forall i | 0 <= i < |pre| - 1
          ensures IsSpace(pre[1..][i])
        {
          assert pre[1..][i] == pre[i + 1];
        }
      }
      TrimLeftPadded(pre[1..], u);
    }
  }

  /** Cutting trailing whitespace off `t + post` leaves exactly `t` when `t`
      does not itself end with whitespace. */
  lemma {:induction false} TrimRightPadded(t: string, post: string)
    requires AllSpace(post)
    requires |t| == 0 || !IsSpace(t[|t| - 1])
    ensures TrimRight(t + post) == t
    decreases |post|
  {
    if |post| == 0 {
      assert t + post == t;
    } else {
      var s := t + post;
      var p := post[..|post| - 1];
      assert s[|s| - 1] == post[|post| - 1] && IsSpace(post[|post| - 1]);
      assert s[..|s| - 1] == t + p;
      assert AllSpace(p) by {
        forall i | 0 <= i < |p|
          ensures IsSpace(p[i])
        {
          assert p[i] == post[i];
        }
      }
      TrimRightPadded(t, p);
    }
  }

  /** Stripping undoes whitespace padding exactly: `t`, which neither starts
      nor ends with whitespace, is recovered from `pre + t + post`. */
  lemma StripPadded(pre: string, t: string, post: string)
    requires AllSpace(pre) && AllSpace(post)
    requires |t| == 0 || (!IsSpace(t[0]) && !IsSpace(t[|t| - 1]))
    ensures Strip(pre + t + post) == t
  {
    assert pre + t + post == pre + (t + post);
    if |t| == 0 {
      assert t + post == post;
      TrimLeftPadded(pre + post, []);
      assert pre + post + [] == pre + post;
    } else {
      TrimLeftPadded(pre, t + post);
      TrimRightPadded(t, post);
    }
  }

  /** A word that neither starts nor ends with whitespace strips to itself. */
  lemma StripTrimmed(t: string)
    requires |t| > 0 && !IsSpace(t[0]) && !IsSpace(t[|t| - 1])
    ensures Strip(t) == t
  {
    StripLeading([], t);
    assert [] + t == t;
  }

  /** Stripping removes leading whitespace from a trimmed word. */
  lemma StripLeading(pre: string, t: string)
    requires AllSpace(pre)
    requires |t| > 0 && !IsSpace(t[0]) && !IsSpace(t[|t| - 1])
    ensures Strip(pre + t) == t
  {
    TrimLeftPadded(pre, t);
    TrimRightPadded(t, []);
    assert t + [] == t;
  }

  /** Stripping removes trailing whitespace from a trimmed word. */
  lemma StripTrailing(t: string, post: string)
    requires AllSpace(post)
    requires |t| > 0 && !IsSpace(t[0]) && !IsSpace(t[|t| - 1])
    ensures Strip(t + post) == t
  {
    TrimLeftPadded([], t + post);
    assert [] + (t + post) == t + post;
    TrimRightPadded(t, post);
  }

  /** Length of the longest whitespace-free prefix of `s`. */
  function WordLen(s: string): (n: nat)
    ensures n <= |s|
    ensures forall k :: 0 <= k < n ==> !IsSpace(s[k])
    ensures n == |s| || IsSpace(s[n])
  {
    if |s| == 0 || IsSpace(s[0]) then 0 else 1 + WordLen(s[1..])
  }

  /** Python `s.split()`: the maximal runs of non-whitespace characters, in
      order; every piece is a token. */
  function Split(s: string): (r: seq<string>)
    ensures forall i :: 0 <= i < |r| ==> Token(r[i])
    decreases |s|
  {
    if |s| == 0 then []
    else if IsSpace(s[0]) then Split(s[1..])
    else
      var n := WordLen(s);
      [s[..n]] + Split(s[n..])
  }

  /** A whitespace character separates: what lies left of it and what lies
      right of it are split independently. */
  lemma {:induction false} SplitAtSpace(x: string, c: char, y: string)
    requires IsSpace(c)
    ensures Split(x + [c] + y) == Split(x) + Split(y)
    decreases |x|
  {
    var s := x + [c] + y;
    if |x| == 0 {
      assert s[1..] == y;
    } else if IsSpace(x[0]) {
      assert s[1..] == x[1..] + [c] + y;
      SplitAtSpace(x[1..], c, y);
    } else {
      WordBeforeSpace(x, c, y);
      SplitAtSpace(x[WordLen(x)..], c, y);
    }
  }

  /** The first word of `x + [c] + y` is the first word of `x` when `c` is
      whitespace. */
  lemma WordBeforeSpace(x: string, c: char, y: string)
    requires IsSpace(c) && |x| > 0 && !IsSpace(x[0])
    ensures var s := x + [c] + y; var n := WordLen(x);
      && WordLen(s) == n && s[..n] == x[..n] && s[n..] == x[n..] + [c] + y
  {
    var z := [c] + y;
    WordLenAppend(x, z);
    ConcatAssoc(x, [c], y);
    AppendSlices(x, z, WordLen(x));
    ConcatAssoc(x[WordLen(x)..], [c], y);
  }

  lemma AppendSlices(x: string, z: string, n: nat)
    requires n <= |x|
    ensures (x + z)[..n] == x[..n] && (x + z)[n..] == x[n..] + z
  {
  }

  /** Appending text that starts with whitespace leaves the first word
      unchanged. */
  lemma {:induction false} WordLenAppend(x: string, z: string)
    requires |z| > 0 && IsSpace(z[0])
    ensures WordLen(x + z) == WordLen(x)
    decreases |x|
  {
    if |x| == 0 {
      assert x + z == z;
    } else {
      assert (x + z)[0] == x[0];
      assert (x + z)[1..] == x[1..] + z;
      WordLenAppend(x[1..], z);
    }
  }

  /** A token splits into itself. */
  lemma SplitToken(w: string)
    requires Token(w)
    ensures Split(w) == [w]
  {
    assert !IsSpace(w[0]);
    assert WordLen(w) == |w|;
    assert w[..|w|] == w;
    assert w[|w|..] == [];
  }

  /** Concatenating a piece that is empty or starts with whitespace. */
  lemma SplitBeforeSpaced(x: string, y: string)
    requires |y| == 0 || IsSpace(y[0])
    ensures Split(x + y) == Split(x) + Split(y)
  {
    if |y| > 0 {
      SplitAtSpace(x, y[0], y[1..]);
      assert x + y == x + [y[0]] + y[1..];
      assert Split(y) == Split([y[0]] + y[1..]) by {
        SplitAtSpace([], y[0], y[1..]);
        assert [] + [y[0]] + y[1..] == y;
      }
    } else {
      assert x + y == x;
    }
  }

  /** Round trip: joining tokens with single spaces and splitting again
      gives the tokens back. */
  lemma {:induction false} SplitJoin(toks: seq<string>)
    requires forall i :: 0 <= i < |toks| ==> Token(toks[i])
    ensures Split(Join(" ", toks)) == toks
  {
    if |toks| == 0 {
    } else if |toks| == 1 {
      SplitToken(toks[0]);
    } else {
      SplitJoin(toks[1..]);
      SplitAtSpace(toks[0], ' ', Join(" ", toks[1..]));
      assert toks[0] + " " + Join(" ", toks[1..]) == toks[0] + [' '] + Join(" ", toks[1..]);
      SplitToken(toks[0]);
    }
  }

  // ---------------------------------------------------------------------
  // Splitting at a single separator character.

  /** Python `s.find(d)`, with `|s|` standing for "not found". */
  function Find(s: string, d: char): (i: nat)
    ensures i <= |s|
    ensures forall k :: 0 <= k < i ==> s[k] != d
    ensures i < |s| ==> s[i] == d
  {
    if |s| == 0 || s[0] == d then 0 else 1 + Find(s[1..], d)
  }

  /** Python `s.split(d)` for a one-character separator. */
  function SplitOn(s: string, d: char): (r: seq<string>)
    ensures |r| >= 1
    decreases |s|
  {
    var i := Find(s, d);
    if i == |s| then [s] else [s[..i]] + SplitOn(s[i + 1..], d)
  }

  /** Joining two non-empty lists of parts puts one separator between them. */
  lemma {:induction false} JoinAppend(sep: string, xs: seq<string>, ys: seq<string>)
    requires |xs| >= 1 && |ys| >= 1
    ensures Join(sep, xs + ys) == Join(sep, xs) + sep + Join(sep, ys)
    decreases |xs|
  {
    if |xs| == 1 {
      assert (xs + ys)[1..] == ys;
    } else {
      assert (xs + ys)[1..] == xs[1..] + ys;
      JoinAppend(sep, xs[1..], ys);
      ConcatAssoc(xs[0] + sep, Join(sep, xs[1..]) + sep, Join(sep, ys));
      ConcatAssoc(xs[0] + sep, Join(sep, xs[1..]), sep);
    }
  }

  /** Round trip: splitting a join at its separator character gives the
      parts back, when no part contains that character. */
  lemma {:induction false} SplitOnJoin(parts: seq<string>, d: char)
    requires |parts| >= 1
    requires forall i :: 0 <= i < |parts| ==> d !in parts[i]
    ensures SplitOn(Join([d], parts), d) == parts
  {
    var p := parts[0];
    assert d !in p;
    if |parts| == 1 {
      assert Find(p, d) == |p|;
    } else {
      var rest := Join([d], parts[1..]);
      var s := p + [d] + rest;
      assert Join([d], parts) == s;
      assert forall k :: 0 <= k < |p| ==> s[k] == p[k];
      assert s[|p|] == d;
      assert Find(s, d) == |p|;
      assert s[..|p|] == p;
      assert s[|p| + 1..] == rest;
      SplitOnJoin(parts[1..], d);
    }
  }

  /** A string free of the separator character splits into itself. */
  lemma SplitOnFree(s: string, d: char)
    requires d !in s
    ensures SplitOn(s, d) == [s]
  {
    assert Find(s, d) == |s|;
  }

  /** Splitting `x + d + y` at `d` splits `x` and `y` on their own: the
      pieces of `x` come first, then those of `y`. */
  lemma {:induction false} SplitOnAppend(x: string, y: string, d: char)
    ensures SplitOn(x + [d] + y, d) == SplitOn(x, d) + SplitOn(y, d)
    decreases |x|
  {
    var s := x + [d] + y;
    var i := Find(x, d);
    assert forall k :: 0 <= k < |x| ==> s[k] == x[k];
    assert s[|x|] == d;
    assert Find(s, d) == i;
    if i == |x| {
      assert s[..i] == x;
      assert s[i + 1..] == y;
    } else {
      var x' := x[i + 1..];
      assert s[..i] == x[..i];
      assert s[i + 1..] == x' + [d] + y;
      SplitOnAppend(x', y, d);
    }
  }

  /** The pieces of every part, in order. */
  function SplitEach(parts: seq<string>, d: char): (r: seq<string>)
    ensures |r| >= |parts|
  {
    if |parts| == 0 then [] else SplitOn(parts[0], d) + SplitEach(parts[1..], d)
  }

  lemma SplitEachCons(p: string, ps: seq<string>, d: char)
    ensures SplitEach([p] + ps, d) == SplitOn(p, d) + SplitEach(ps, d)
  {
    assert ([p] + ps)[1..] == ps;
  }

  lemma SplitEachOne(p: string, d: char)
    ensures SplitEach([p], d) == SplitOn(p, d)
  {
    assert [p][1..] == [];
  }

  lemma {:induction false} SplitEachAppend(xs: seq<string>, ys: seq<string>, d: char)
    ensures SplitEach(xs + ys, d) == SplitEach(xs, d) + SplitEach(ys, d)
    decreases |xs|
  {
    if |xs| == 0 {
      assert xs + ys == ys;
    } else {
      assert (xs + ys)[1..] == xs[1..] + ys;
      SplitEachAppend(xs[1..], ys, d);
    }
  }

  /** Splitting a join at its separator character splits each part in
      turn; a part that holds the character contributes several pieces. */
  lemma {:induction false} SplitOnJoinEach(parts: seq<string>, d: char)
    requires |parts| >= 1
    ensures SplitOn(Join([d], parts), d) == SplitEach(parts, d)
  {
    if |parts| == 1 {
      assert parts[1..] == [];
    } else {
      SplitOnAppend(parts[0], Join([d], parts[1..]), d);
      SplitOnJoinEach(parts[1..], d);
    }
  }
}
