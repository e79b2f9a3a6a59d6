# lftp_mirror in Dafny

A model of the deterministic core of `lftp_mirror`. The tool mirrors a
remote FTP/SFTP directory through `lftp`, keeps a text log, can rotate
weekday archives of the local copy, and can mail the log. Every part below
is modelled as pure functions over explicit inputs.

- **The `Logger`** (`logger.dfy`, module `Log`). It is an append-only text
  log. `block` and `list` add titled sections, with the title bar padded
  to a width of 80. `free` adds free text. `time` and `header` are built on
  `block`. `__format__` and `__len__` are also modelled. Three pieces of
  host behaviour are supplied as a `Host` value: the line separator, Unicode
  `str.upper`, and the UTF-8 decoding of subprocess output.
- **The lftp control script** (`script.dfy`, module `Script`). This is the
  script that `mirror` writes: the `open`, `user` and certificate lines,
  the optional `set sftp:auto-confirm yes`, the `mirror` command with its
  option string, and `exit`. It also covers the header message naming the
  transfer direction. `os.path.normpath` is the parameter `norm`. The
  parsed command line is the record `Args.ShellArgs` (`args.dfy`). That
  record keeps every `store_const` option as the string it stores.
- **`best_unit_size`** (`units.dfy`, module `Units`). It picks the IEC
  unit whose integer part is below 1024, computed in integers.
- **`get_path_info`** (`path_info.dfy`, module `PathInfo`). It totals the
  sizes over an explicit directory tree walked the way `os.walk` walks it.
- **`compress`** (`rotation.dfy`, module `Rotation`). This is the weekday
  archive rotation over a listing of the working directory. The weekday of
  the glob and the time stamp of the new name are separate inputs, as they
  are two clock readings in the program.
- **`parse_parms`** (`params.dfy`, module `Params`). It flattens cron or
  configuration parameters into a command line. The text the f-string
  makes of the decoded password is the parameter `render`.
- **The e-mail path of `main`** (`mail.dfy`, module `Mail`). This covers:
  - the validation of the e-mail options;
  - the line parser of the SMTP credentials file;
  - the choice of settings handed to `Logger.send`;
  - the sender and recipient defaulting inside `send`, with the local
    user and host as parameters.

`text.dfy` holds the Python string behaviour the modules share:
`str.join`, `str.strip`, `str.split()` on the Unicode whitespace set,
`str.split(d)`, `str.find`, `str.rjust` and string repetition.
`outcomes.dfy` holds `Option` and `Result`.

The model follows the code, including these quirks:
- Exclude patterns are rendered with `--include-glob`, not
  `--exclude-glob`.
- The exclude fragments come before the include fragments.
- Consecutive glob fragments are separated by two spaces.
- Without a port, the `open` line ends in a space.

## Model

| member | source | states |
|---|---|---|
| Args.DefaultsFromParser | src/lftp_mirror.py:396-487 | the namespace with no option given is one the parser produces: every constant-valued option holds its default (the option string it gives is stated by `Script.NoOptions`) |
| Log.ScriptName | src/lftp_mirror.py:145 | the script name is the part of the file name before its first dot: a prefix of the file name that holds no dot and is followed by a dot when shorter |
| Log.New | src/lftp_mirror.py:135-146 | a new logger has an empty log, and its script name is the part of the file name before the first dot: a dot-free prefix followed by a dot whenever it is shorter than the name |
| Log.FileName | src/lftp_mirror.py:146 | the log file name is the script name followed by `.log` |
| Log.LenAfter | src/lftp_mirror.py:148-149 | after any call, `len(log)` has grown by the length of the text that call appends, and it is unchanged exactly when the call is skipped: falsy `block` or `list` content, `free` of a non-string, or `free` of `''` with an empty separator; `time` and `header` always grow it |
| Log.Decoded | src/lftp_mirror.py:197 | each byte line is decoded on its own, in order, one string per line |
| Log.BlockText | src/lftp_mirror.py:170-183 | `block` appends something exactly when its content is truthy (a non-empty string or a non-empty list) |
| Log.ListText | src/lftp_mirror.py:185-200 | `list` appends something exactly when its content is truthy, for string, byte-line-list and bytes content; `ListIsLines` gives the text |
| Log.ListIsLines | src/lftp_mirror.py:185-200 | a truthy `list` call appends the upper-cased title with a bar of `_` sized `80 - len(title)`, then the content lines (the string, each decoded byte line, or the decoded byte string), each ended by the separator, with no closing bar; a falsy one leaves the logger unchanged |
| Log.ListReadBack | src/lftp_mirror.py:192-200 | with a one-character separator that no line holds, splitting the list text gives back the title bar and the content lines |
| Log.FreeText | src/lftp_mirror.py:202-209 | `free` adds nothing for non-string content; for a string, even an empty one, it adds the string, then two separators, and nothing else |
| Log.FreeReadBack | src/lftp_mirror.py:209 | free text with a one-character separator it does not contain reads back as the text followed by two empty lines |
| Log.TimeLine | src/lftp_mirror.py:223 | the clock reading is right-justified to width 80 by spaces on its left, and a longer reading is kept whole |
| Log.HeaderLines | src/lftp_mirror.py:241-242 | the header lines are the name followed by exactly ` (v0.16.2)`, the url, a blank line and the message |
| Log.Block | src/lftp_mirror.py:170-183 | the old log stays a prefix of the new one; the log is unchanged exactly when the content is falsy |
| Log.List | src/lftp_mirror.py:185-200 | the old log stays a prefix of the new one and the script name is kept; the log is unchanged exactly when the content is falsy; what it appends is given by `ListIsLines` |
| Log.Free | src/lftp_mirror.py:202-209 | the old log stays a prefix; a list leaves the logger unchanged; a string is appended followed by exactly two separators |
| Log.Time | src/lftp_mirror.py:211-223 | `time` always appends, keeping the old log as a prefix |
| Log.Header | src/lftp_mirror.py:225-242 | `header` always appends, keeping the old log as a prefix |
| Log.Format | src/lftp_mirror.py:151-168 | formatting succeeds exactly for `block` and `list`, giving the log followed by exactly one separator; any other specifier is the `Unsupported format specifier` error |
| Log.FormatAfter | src/lftp_mirror.py:151-168 | after any sequence of calls, `block` and `list` formatting both give the earlier log, the texts the calls appended, and one separator |
| Log.ApplyAll | src/lftp_mirror.py:126-242 | any sequence of logging calls keeps the script name and the old log as a prefix |
| Log.ApplyAppendsDelta | src/lftp_mirror.py:170-242 | each call appends a text that depends only on its arguments and the script name, never on what was logged before |
| Log.Replay | src/lftp_mirror.py:170-242 | a sequence of calls appends the concatenation of the texts of the single calls |
| Log.SameOpsSameSuffix | src/lftp_mirror.py:170-242 | two loggers of the same script given the same calls gain the same text |
| Log.BlockIsLines | src/lftp_mirror.py:177-183 | a non-empty block is its title bar, its content lines and the closing bar of 80 `=`, each ended by the separator |
| Log.BlockReadBack | src/lftp_mirror.py:177-183 | with a one-character separator that no line holds, splitting a block at the separator gives back its lines |
| Log.StrIsOneLine | src/lftp_mirror.py:177-182 | a non-empty string block looks the same as a one-line list block, but an empty string is skipped while the list `['']` is not |
| Log.TimeReadBack | src/lftp_mirror.py:211-223 | a time block reads back as the title bar, the justified clock reading and the closing bar |
| Log.HeaderReadBack | src/lftp_mirror.py:225-242 | when the title, the script name and the version line are free of the one-character separator, a header block reads back as the `SCRIPT` bar, the name-and-version line, the pieces of the url, a blank line, the pieces of the message and the closing bar; the url and the message may themselves hold the separator |
| Log.ScriptBarWidth | src/lftp_mirror.py:178 | the `Script` title bar has 74 fill characters |
| Log.LongTitleNoFill | src/lftp_mirror.py:178 | a title of 80 characters or more gets no fill, since a negative repeat count gives the empty string |
| Script.GlobFlags | src/lftp_mirror.py:667-669 | one ` --include-glob P` fragment per pattern, in the order given |
| Script.GlobRendering | src/lftp_mirror.py:667-669 | one pattern renders as ` --include-glob P`; two patterns are separated by two spaces |
| Script.OptionString | src/lftp_mirror.py:686-692 | the option string starts with the `-vvv` cluster; its whitespace split is stated by `OptionTokens` |
| Script.ReverseOptions | src/lftp_mirror.py:686-692 | turning on `--reverse` inserts `R` right after the `e` and `n` letters and changes nothing else in the option string |
| Script.OptionTokens | src/lftp_mirror.py:686-692 | split at whitespace, the option string is the letter cluster, the set long flags in order, then flag and pattern for every exclude and include pattern, then `--parallel=N` only when parallelism is set |
| Script.EmptyOptions | src/lftp_mirror.py:686-692 | with no letter flag, long flag, pattern or parallelism set, the option string is exactly `-vvv` |
| Script.NoOptions | src/lftp_mirror.py:686-692 | the parser's defaults give the option string `-vvv` |
| Script.Insert | src/lftp_mirror.py:704-705 | `insert(i, x)` puts `x` at index `i`, keeps the earlier items and shifts the later ones by one |
| Script.ScriptLines | src/lftp_mirror.py:695-705 | the script has 6 lines when the session is secure and certificates are not verified, else 5; it starts with the `open` line, then `user` and the certificate line; the auto-confirm line is at index 3 when present; it ends with the `mirror` line and `exit` |
| Script.AutoConfirmIffNeeded | src/lftp_mirror.py:704-705 | the auto-confirm command is in the script exactly when `--secure` is set and `ssl_verify` is not `yes` |
| Script.ScriptReadBack | src/lftp_mirror.py:707 | the script file, with a one-character separator that no line holds, splits back into the script lines |
| Script.WrittenHeaderReadBack | src/lftp_mirror.py:672-676 | the header the program writes reads back as the `SCRIPT` bar, the name-and-version line, the two home pages on lines of their own, a blank line, the connection line, the direction line and the closing bar |
| Script.HeaderMessageReadBack | src/lftp_mirror.py:673-675 | with a one-character separator, the header message reads back as `Connected to SITE as WHO` (the login user or `anonymous`) and `Mirror SOURCE to TARGET` |
| Script.ReverseSwapsScript | src/lftp_mirror.py:701-702 | turning on `--reverse` keeps the number of lines and every line except the `mirror` line, whose quoted source and destination are swapped |
| Script.ReverseSwapsHeader | src/lftp_mirror.py:673-675 | the header message names remote then local, and local then remote under `--reverse` |
| Script.PlainScript | src/lftp_mirror.py:698-705 | an anonymous session without a port and with a bare option string: the `open` line ends in a space, the `user` line is `user `, and the `mirror` line quotes the normalised paths |
| Script.AnonymousScript | src/lftp_mirror.py:663-707 | default anonymous download: exactly the five lines `open ftp://site `, `user `, `set ssl:verify-certificate no`, `mirror -vvv 'remote' 'local'`, `exit` |
| Script.SecureScript | src/lftp_mirror.py:695-705 | with `--secure`: six lines, `sftp://` on the `open` line and the auto-confirm line right after the certificate line |
| Units.FitsBelow | src/lftp_mirror.py:614-615 | the loop test at exponent `10k` holds exactly when the magnitude is below `2^(10(k+1))` |
| Units.FitsMonotone | src/lftp_mirror.py:613-618 | once the test holds for an exponent it holds for every larger one |
| Units.BestUnitSize | src/lftp_mirror.py:603-619 | no unit exactly when the magnitude reaches `1024 * 2^80`; otherwise the first exponent that passes, its label, an integer part below 1024 and the byte count echoed unchanged |
| Units.BestUnique | src/lftp_mirror.py:613-618 | at most one exponent is the first to pass |
| Units.Magnitude | src/lftp_mirror.py:613-618 | the chosen unit brackets the size: at least one unit (except bytes) and fewer than 1024 units |
| Units.BestOfBracket | src/lftp_mirror.py:613-618 | conversely, a size within that bracket is shown in that unit |
| Units.Examples | src/lftp_mirror.py:616-617 | 0 and 1023 are shown in bytes, 1024 in KiB, `2^40` in TiB; `2^90` fits no unit |
| PathInfo.ListingSums | src/lftp_mirror.py:627-632 | the sizes listed for a directory's subdirectories and files add up to all its children's sizes, and the files listed are its non-directory children |
| PathInfo.WalkCounts | src/lftp_mirror.py:627-632 | the walk lists every entry below a node exactly once: its sizes add up to the sizes below it and its files to the files below it |
| PathInfo.StepTotals | src/lftp_mirror.py:628-632 | one step adds the number of its files and the sizes of its files and subdirectories |
| PathInfo.GetPathInfo | src/lftp_mirror.py:623-634 | the result is the size of what the path names once links are followed plus every entry below it, and the number of files below it; a root link is measured as its target; a root that is not a directory gives its size and 0 |
| PathInfo.LinkNotFollowed | src/lftp_mirror.py:627-632 | below the top, a link to a directory adds its own entry size but nothing below its target, and is not counted as a file |
| PathInfo.FileLinkCounted | src/lftp_mirror.py:627-630 | below the top, a link to a file is counted as one file of the link's own entry size |
| Rotation.Basename | src/lftp_mirror.py:643 | the base name is a slash-free suffix of the path that follows its last slash |
| Rotation.PathJoin | src/lftp_mirror.py:649-650 | joining keeps the directory as prefix and the name as suffix; a `/` is put between them exactly when the directory is non-empty and does not already end with one |
| Rotation.Filter | src/lftp_mirror.py:644 | the glob result holds exactly the listed names that match `<base>*<day>.tar.gz` |
| Rotation.ArchiveName | src/lftp_mirror.py:645 | the archive name starts with the base name and ends with the weekday and `.tar.gz` |
| Rotation.ReportEnds | src/lftp_mirror.py:649-654 | the report opens with `Created file:`, a blank line and the created path, and after any removal ends with a separator and the last name removed |
| Rotation.Compress | src/lftp_mirror.py:639-655 | every archive of the weekday found before the call is removed; the new archive exists unless its name was itself found before; every other name is untouched; the removed names are exactly those found, in listing order; the report names the new archive's full path and those removed names |
| Rotation.OnePerWeekday | src/lftp_mirror.py:644-652 | afterwards the only archive left that matches the glob is the one just written |
| Rotation.ArchiveMatches | src/lftp_mirror.py:644-645 | a new archive always matches the glob of its own weekday |
| Rotation.TwoRotations | src/lftp_mirror.py:643-652 | on the same weekday a later run with a different stamp replaces the earlier archive, while same-minute runs alternate: the second keeps its archive exactly when the first lost its own |
| Rotation.SiblingArchivesMatch | src/lftp_mirror.py:643-644 | the glob of a directory also matches the archives of any directory whose name extends it |
| Rotation.ReportIsLines | src/lftp_mirror.py:649-654 | the returned report is `Created file:`, a blank, the new path, and per removal a blank line, `Deleted old file:`, a blank and the removed name, joined by the separator |
| Rotation.ReportReadBack | src/lftp_mirror.py:649-654 | when no name holds the separator, splitting the report recovers those lines |
| Rotation.CompressReportReadBack | src/lftp_mirror.py:639-655 | the report a rotation returns splits back into `Created file:`, a blank line and the new archive's full path, then, for each removed name in listing order, a blank line, `Deleted old file:`, a blank line and the name |
| Params.ParseParms | src/lftp_mirror.py:776-781 | the result is a list of whitespace-free, non-empty words |
| Params.Template | src/lftp_mirror.py:778-780 | the rebuilt command line starts with `shell `, ends with a space and the options, and holds exactly 16 characters besides the seven fields |
| Params.FieldsSplit | src/lftp_mirror.py:778-781 | the words are `shell`, the site's words, `-p`, the words of port and remote run together, the local words, `-l`, the words of user and rendered password run together, then the option words |
| Params.FusedTokens | src/lftp_mirror.py:778-780 | with one-word fields, port and remote form one word, and user and rendered password form another |
| Params.EmptyPort | src/lftp_mirror.py:778-781 | an empty port leaves `-p` followed directly by the remote directory |
| Params.CronSettings | src/lftp_mirror.py:794-832 | the built-in cron settings give `shell localhost -p directory /your/path/to/your/local/directory/ -l userb'password'` |
| Mail.Validate | src/lftp_mirror.py:847-859 | with no recipients, any SMTP option is an error; with recipients and no credentials file, a missing server, user, password or sender is an error; with a file, extra options only warn |
| Mail.ValidateCases | src/lftp_mirror.py:847-859 | without recipients the check passes exactly when nothing is configured; without a file it passes exactly when all four options are given; with a file it never fails |
| Mail.CheckedDirectSettings | src/lftp_mirror.py:852-855 | after the check, the direct settings handed on are all present |
| Mail.Unquote | src/lftp_mirror.py:880-885 | one pair of matching quotes is removed; a lone quote character gives the empty string; other values are kept |
| Mail.ParseLine | src/lftp_mirror.py:871-885 | a stripped line that is empty or starts with `#` is skipped; one without `=` cannot be unpacked; otherwise the key holds no `=` |
| Mail.ParseShape | src/lftp_mirror.py:876-885 | a line whose stripped text is `K=V`, with `K` free of `=` and not starting with `#` (an empty `K` included, so `=V` gives the empty key), parses to the stripped key and the unquoted stripped value |
| Mail.ParseAll | src/lftp_mirror.py:870-885 | each line of the file is parsed on its own, in order |
| Mail.WrittenLine | src/lftp_mirror.py:871-885 | a line `key = value`, with any whitespace around key, `=` and value, reads back as the key and the unquoted value |
| Mail.QuotedValue | src/lftp_mirror.py:876-883 | a quoted value reads back as what lies between the quotes |
| Mail.QuoteRoundTrip | src/lftp_mirror.py:876-883 | any value written between a pair of quotes, even one with spaces, `=` or `#`, reads back exactly |
| Mail.Collect | src/lftp_mirror.py:868-885 | reading fails exactly when some line cannot be unpacked, with the unpacking error; otherwise it yields the dictionary built from the pairs |
| Mail.ReadSmtpConfig | src/lftp_mirror.py:866-885 | reading the file fails exactly when one of its lines has no `=`; otherwise it yields the dictionary of its pairs |
| Mail.SettingsKeys | src/lftp_mirror.py:883-885 | a key is in the dictionary exactly when some line sets it |
| Mail.LastWins | src/lftp_mirror.py:883-885 | the last line that sets a key decides its value |
| Mail.Settings | src/lftp_mirror.py:883-885 | every entry of the dictionary is the key and value of some parsed line |
| Mail.ChosenSources | src/lftp_mirror.py:887-894 | with a credentials file the direct server, user, password and sender options make no difference to what `send` gets; without one, the file's contents make none |
| Mail.ChosenServerFromFile | src/lftp_mirror.py:883-891 | with a credentials file, `send` gets as server the value on the last line of the file that sets `server` |
| Mail.Address | src/lftp_mirror.py:264 | the local address contains `@` |
| Mail.MakeEnvelope | src/lftp_mirror.py:264-274 | a missing sender or recipient list falls back to the local address, so there is always a sender and at least one recipient |
| Mail.OneRecipientHeader | src/lftp_mirror.py:270-274 | a single recipient is the whole `To` header |
| Mail.EnvelopeStable | src/lftp_mirror.py:264-268 | applying the fallback a second time changes nothing |

## Left out

- Running lftp, writing the `ftpscript` file and the log file, and the `mkdir` of a missing local directory. These are process and file I/O; only the text is modelled.
- The SMTP transport of `Logger.send`, and its subject line and date header. The subject uses a clock and the date comes from the library; only the address defaulting and the `To` header are modelled.
- `notify`, `check_execs_posix_win`, `find_occ`, `reindex_cloud` and `--update-cloud`. These are desktop UI, platform probing and subprocesses.
- lftp's own command parser. Besides splitting at whitespace it gives quotes, backslashes and `;` a meaning; `Script.OptionTokens` states only the whitespace split.
- The argparse grammar. Its result is the `ShellArgs` record, and `FromParser` states which values the parser can store.
- The `@logger.catch` and `trace` decorators. Exceptions they swallow are modelled as results: `best_unit_size` returns `None` when no unit fits (an `Option`), and a line of the SMTP credentials file without `=` makes reading fail (`Mail.Collect` returns an error). A failing `compress` returning `None`, which makes `list` skip the rotation section, is not modelled: file-system failures are outside the model.
- The order of logging calls inside `mirror` and the disk-usage line. That line needs float formatting with `.2f`, the sizes of the `.gz` files on disk and the log file. Any such sequence of calls is covered by `Log.ApplyAll` and `Log.Replay`.
- Units.BestUnitSize: the source divides in floating point. The model keeps the exact integer part, so for sizes above 2^53, where the float quotient rounds, the two can differ. The returned `s` is the integer part, not the float.
- `list` with a `set`, as `mirror` calls it for notification errors. `set` has no `decode`, so the call raises in the program; the model offers only the string, byte-line-list and bytes cases.
- Generators and other iterables given to `block`, whose truthiness Python does not derive from their contents. The content is a string or a list.
- Glob metacharacters inside the directory name, and the order in which `glob` lists names. `Compress` filters the listing in the order given and treats the name as literal text.
- Errors of `os.walk` and `os.lstat` (they are ignored or raised by the library), broken links and link cycles. The tree is explicit and finite, and every link has a target.
- `tarfile` contents, `time.strftime`, `os.linesep`, `os.path.normpath`, `os.getcwd`, `getpass.getuser`, `socket.gethostname`, `str.upper`, `bytes.decode` and `base64.b64decode`. All are library behaviour and enter the model as parameters.
- Reading the configuration file with `ConfigParser` for the `cfg` mode. Its values reach `parse_parms` as the `Fields` record.
- Mail.MailSettings and Mail.Get: `None` from `dict.get` is modelled as the empty string. Both are falsy in `send`, so the defaulting is the same.
