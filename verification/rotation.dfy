/** `compress`: write a dated archive of a directory into the working
    directory and remove the archives of the same weekday that were there
    before. The working directory is a listing of names; the two clock
    readings of the source (one for the weekday of the search pattern, one
    for the new name) are separate inputs. */
module Rotation {
  import opened Text

  const Ext := ".tar.gz"

  /** `os.path.basename` on POSIX: the part after the last `/`. */
  function Basename(path: string): (r: string)
    ensures HasSuffix(path, r) && '/' !in r
    ensures |r| < |path| ==> path[|path| - |r| - 1] == '/'
    decreases |path|
  {
    if |path| == 0 || path[|path| - 1] == '/' then []
    else Basename(path[..|path| - 1]) + [path[|path| - 1]]
  }

  /** `os.path.join(cwd, name)` for a relative `name`: a slash is put
      between the two exactly when `cwd` is non-empty and does not already
      end with one. */
  function PathJoin(cwd: string, name: string): (r: string)
    ensures HasSuffix(r, name) && HasPrefix(r, cwd)
    ensures |r| == |cwd| + |name| || |r| == |cwd| + 1 + |name|
    ensures |r| == |cwd| + 1 + |name| <==> cwd != [] && cwd[|cwd| - 1] != '/'
    ensures |r| == |cwd| + 1 + |name| ==> r[|cwd|] == '/'
  {
    if cwd == [] || cwd[|cwd| - 1] == '/' then cwd + name else cwd + "/" + name
  }

  /** A name `glob.glob(base + "*" + day + ".tar.gz")` returns: it starts
      with `base`, ends with `day.tar.gz` without the two overlapping, and
      (when the pattern itself starts with the star) is not hidden. */
  predicate Matches(name: string, base: string, day: string) {
    && |base| + |day + Ext| <= |name|
    && HasPrefix(name, base)
    && HasSuffix(name, day + Ext)
    && !(base == [] && |name| > 0 && name[0] == '.')
  }

  /** The glob result in listing order. */
  function Filter(listing: seq<string>, base: string, day: string): (r: seq<string>)
    ensures forall x :: x in r <==> x in listing && Matches(x, base, day)
    ensures |r| <= |listing|
  {
    if |listing| == 0 then []
    else
      var head := if Matches(listing[0], base, day) then [listing[0]] else [];
      head + Filter(listing[1..], base, day)
  }

  /** The three parts of `strftime('%d%b%Y_%H:%M_%a')`. */
  datatype Stamp = Stamp(date: string, clock: string, day: string)

  function ArchiveName(base: string, s: Stamp): (r: string)
    ensures HasPrefix(r, base) && HasSuffix(r, s.day + Ext)
  {
    base + "_" + s.date + "_" + s.clock + "_" + s.day + Ext
  }

  /** The outcome: the names in the directory afterwards, the archive
      written, the names removed in order, and the returned report. */
  datatype Rotated = Rotated(files: set<string>, created: string, deleted: seq<string>, report: string)

  function Deletion(sep: string, stale: string): string {
    Join(sep, [sep, "Deleted old file:", "", stale])
  }

  /** A removal paragraph ends with a separator and the removed name. */
  lemma DeletionEnds(sep: string, stale: string)
    ensures HasSuffix(Deletion(sep, stale), sep + stale)
  {
    var h := "Deleted old file:";
    assert [sep, h, "", stale][1..] == [h, "", stale];
    assert [h, "", stale][1..] == ["", stale];
    assert ["", stale][1..] == [stale];
    var tail := Join(sep, ["", stale]);
    assert Join(sep, [stale]) == stale;
    assert tail == "" + sep + stale;
    var mid := Join(sep, [h, "", stale]);
    assert mid == h + sep + tail;
    assert Deletion(sep, stale) == sep + sep + mid;
    ConcatAssoc(sep + sep, h + sep, sep + stale);
  }

  /** The report after removing `olds`, one paragraph per removal. */
  function Report(sep: string, created: string, olds: seq<string>): string
    decreases |olds|
  {
    if |olds| == 0 then Join(sep, ["Created file:", "", created])
    else Report(sep, created, olds[..|olds| - 1]) + Deletion(sep, olds[|olds| - 1])
  }

  /** The report always opens with the created path and, after a removal,
      ends with the last name removed. */
  lemma {:induction false} ReportEnds(sep: string, created: string, olds: seq<string>)
    ensures HasPrefix(Report(sep, created, olds), Join(sep, ["Created file:", "", created]))
    ensures |olds| > 0 ==> HasSuffix(Report(sep, created, olds), sep + olds[|olds| - 1])
    decreases |olds|
  {
    if |olds| > 0 {
      ReportEnds(sep, created, olds[..|olds| - 1]);
      DeletionEnds(sep, olds[|olds| - 1]);
    }
  }

  function Compress(path: string, cwd: string, listing: seq<string>, globDay: string,
                    stamp: Stamp, sep: string): (r: Rotated)
    // every archive of the weekday found before the call is gone
    ensures forall x :: x in listing && Matches(x, Basename(path), globDay) ==> x !in r.files
    // the new archive stays unless its name was itself found before
    ensures r.created == ArchiveName(Basename(path), stamp)
    ensures r.created in r.files <==> !(r.created in listing && Matches(r.created, Basename(path), globDay))
    // nothing else changes
    ensures forall x :: (x != r.created && !(x in listing && Matches(x, Basename(path), globDay)))
                       ==> (x in r.files <==> x in listing)
    ensures forall x :: x in r.deleted <==> x in listing && Matches(x, Basename(path), globDay)
    // the old archives are removed in listing order and reported with the new path
    ensures r.deleted == Filter(listing, Basename(path), globDay)
    ensures r.report == Report(sep, PathJoin(cwd, r.created), r.deleted)
  {
    var base := Basename(path);
    var stale := Filter(listing, base, globDay);
    var name := ArchiveName(base, stamp);
    var files := ((set x | x in listing) + {name}) - (set x | x in stale);
    Rotated(files, name, stale, Report(sep, PathJoin(cwd, name), stale))
  }

  /** After a rotation at most one archive of the weekday remains: the one
      just written, and only if the weekdays of the two clock readings agree. */
  lemma OnePerWeekday(path: string, cwd: string, listing: seq<string>, globDay: string,
                      stamp: Stamp, sep: string)
    ensures var r := Compress(path, cwd, listing, globDay, stamp, sep);
      forall x :: x in r.files && Matches(x, Basename(path), globDay) ==> x == r.created
  {
  }

  /** A new archive always matches the pattern of its own weekday. */
  lemma ArchiveMatches(base: string, s: Stamp)
    ensures Matches(ArchiveName(base, s), base, s.day)
  {
    var n := ArchiveName(base, s);
    assert n == base + ("_" + s.date + "_" + s.clock + "_" + s.day + Ext);
    if base == [] {
      assert n[0] == '_';
    }
  }

  /** Two runs on the same weekday. When the second run's stamp differs,
      the first archive is replaced by the second. When both runs fall in
      the same minute the name is found by the second run's search and
      removed again, so same-minute runs alternate: the second keeps its
      archive exactly when the first lost its own. */
  lemma TwoRotations(path: string, cwd: string, listing: seq<string>, listing2: seq<string>,
                     s1: Stamp, s2: Stamp, sep: string)
    requires s1.day == s2.day
    requires forall x :: x in listing2 <==> x in Compress(path, cwd, listing, s1.day, s1, sep).files
    ensures var r1 := Compress(path, cwd, listing, s1.day, s1, sep);
      var r2 := Compress(path, cwd, listing2, s2.day, s2, sep);
      && (r1.created != r2.created ==> r1.created !in r2.files && r2.created in r2.files)
      && (r1.created == r2.created ==> (r2.created in r2.files <==> r1.created !in r1.files))
      && (forall x :: x in r2.files && Matches(x, Basename(path), s1.day) ==> x == r2.created)
  {
    var base, day := Basename(path), s1.day;
    var r1 := Compress(path, cwd, listing, day, s1, sep);
    var r2 := Compress(path, cwd, listing2, day, s2, sep);
    var n1, n2 := r1.created, r2.created;
    ArchiveMatches(base, s1);
    ArchiveMatches(base, s2);
    assert Matches(n1, base, day) && Matches(n2, base, day);
    if n1 != n2 {
      assert n2 !in r1.files by {
        if n2 in listing {
          assert n2 !in r1.files;
        }
      }
      assert n2 !in listing2;
      assert n2 in r2.files;
      if n1 in listing2 {
        assert n1 !in r2.files;
      }
    } else {
      if n1 in listing2 {
        assert n1 in r1.files;
        assert n2 !in r2.files;
      } else {
        assert n1 !in r1.files;
        assert n2 in r2.files;
      }
    }
  }

  /** A directory whose name extends `base` has its archives matched too:
      rotating `data` removes the same weekday's archives of `database`. */
  lemma SiblingArchivesMatch(base: string, more: string, s: Stamp)
    requires base != []
    ensures Matches(ArchiveName(base + more, s), base, s.day)
  {
    var n := ArchiveName(base + more, s);
    assert n == base + (more + "_" + s.date + "_" + s.clock + "_" + s.day + Ext);
  }

  // ---------------------------------------------------------------------
  // The report read back line by line.

  /** The lines of the report: the created path, then per removal a blank
      line, the heading, a blank line and the removed name. */
  function ReportLines(created: string, olds: seq<string>): (r: seq<string>)
    ensures |r| == 3 + 4 * |olds|
    decreases |olds|
  {
    if |olds| == 0 then ["Created file:", "", created]
    else ReportLines(created, olds[..|olds| - 1]) + ["", "Deleted old file:", "", olds[|olds| - 1]]
  }

  lemma DeletionLines(d: char, stale: string)
    ensures Deletion([d], stale) == [d] + Join([d], ["", "Deleted old file:", "", stale])
  {
    var sep := [d];
    var h := "Deleted old file:";
    assert [sep, h, "", stale][1..] == [h, "", stale];
    assert [h, "", stale][1..] == ["", stale];
    assert ["", stale][1..] == [stale];
    assert ["", h, "", stale][1..] == [h, "", stale];
    assert Join(sep, ["", stale]) == "" + sep + stale;
    assert Join(sep, [h, "", stale]) == h + sep + Join(sep, ["", stale]);
    assert Join(sep, ["", h, "", stale]) == "" + sep + Join(sep, [h, "", stale]);
    assert Deletion(sep, stale) == sep + sep + Join(sep, [h, "", stale]);
  }

  /** With a one-character separator, the report is its lines joined. */
  lemma {:induction false} ReportIsLines(d: char, created: string, olds: seq<string>)
    ensures Report([d], created, olds) == Join([d], ReportLines(created, olds))
    decreases |olds|
  {
    var sep := [d];
    if |olds| == 0 {
      assert ["Created file:", "", created][1..] == ["", created];
      assert ["", created][1..] == [created];
    } else {
      var init, o := olds[..|olds| - 1], olds[|olds| - 1];
      ReportIsLines(d, created, init);
      var prev := ReportLines(created, init);
      var tail := ["", "Deleted old file:", "", o];
      DeletionLines(d, o);
      JoinAppend(sep, prev, tail);
    }
  }

  /** When neither the created path nor any removed name contains the
      separator, splitting the report at it recovers the lines. */
  lemma ReportReadBack(d: char, created: string, olds: seq<string>)
    requires d !in created && forall i :: 0 <= i < |olds| ==> d !in olds[i]
    requires d !in "Created file:" && d !in "Deleted old file:"
    ensures SplitOn(Report([d], created, olds), d) == ReportLines(created, olds)
  {
    ReportIsLines(d, created, olds);
    LinesFree(d, created, olds);
    SplitOnJoin(ReportLines(created, olds), d);
  }

  /** The report a rotation returns reads back, line by line, as the path of
      the new archive and every removed name, when none of them holds the
      separator. */
  lemma CompressReportReadBack(path: string, cwd: string, listing: seq<string>, globDay: string,
                               stamp: Stamp, d: char)
    requires d !in PathJoin(cwd, ArchiveName(Basename(path), stamp))
    requires forall x :: x in listing ==> d !in x
    requires d !in "Created file:" && d !in "Deleted old file:"
    ensures var r := Compress(path, cwd, listing, globDay, stamp, [d]);
      SplitOn(r.report, d) == ReportLines(PathJoin(cwd, r.created), r.deleted)
  {
    var stale := Filter(listing, Basename(path), globDay);
    forall i | 0 <= i < |stale|
      ensures d !in stale[i]
    {
      assert stale[i] in listing;
    }
    ReportReadBack(d, PathJoin(cwd, ArchiveName(Basename(path), stamp)), stale);
  }

  lemma {:induction false} LinesFree(d: char, created: string, olds: seq<string>)
    requires d !in created && forall i :: 0 <= i < |olds| ==> d !in olds[i]
    requires d !in "Created file:" && d !in "Deleted old file:"
    ensures forall i :: 0 <= i < |ReportLines(created, olds)| ==> d !in ReportLines(created, olds)[i]
    decreases |olds|
  {
    if |olds| > 0 {
      LinesFree(d, created, olds[..|olds| - 1]);
    }
  }
}
