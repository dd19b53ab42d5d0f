# splitcopy in Dafny

`splitcopy.py` copies a large file to a Junos host quickly. It cuts the file locally into pieces with `split -b`, copies the pieces in parallel over SCP into a staging directory `/var/tmp/splitcopy_<name>`, concatenates them remotely into `/var/tmp/<name>`, removes the staging directory, and compares the remote SHA-1 of the result with a reference digest. This project models the deterministic logic inside `main()` and proves properties of it:

- the credential check;
- the base name of the file;
- the piece size handed to `split`;
- the loop that collects the pieces from the scratch directory (`CollectChunks`, a method with a loop invariant);
- the remote paths and the shell commands built from them;
- the reference digest and the parsing of the remote digest;
- the final report;
- a whole run as a sequence of local commands, remote commands and copies (`Main`). A remote command is recorded as its kind and the file name; `CommandLine` gives the text the script sends, and the kind and name can be read back from that text.

Whatever the collaborators produce is passed in as a parameter. That covers the sidecar file, `sha1sum`, the directory listing after `split`, and the status and output of each remote command.

Files:
- `wrappers.dfy`: `Option`.
- `pystr.dfy`: the Python `str` operations the script relies on, namely `isspace`, `rstrip`, `split`, `rsplit(…, 1)`, `startswith` and the decimal rendering of an `int`.
- `fnmatch.dfy`: `fnmatch` for patterns with `*` and `?`.
- `splitcopy.dfy`: `main()`.

The model keeps these facts of the code:
- Files shorter than 20 bytes are not rejected; the piece size handed to `split` is then 0.
- The results of the uploads are never inspected.
- `cat` concatenates whatever the remote shell's `*` lists.
- The piece size handed to `split -b` is `file_size // 20` bytes, whatever the file's size.

Two defects of the code are listed under "## Findings". Each is modelled as written and as evidently intended, and `Main` uses the intended definitions (`ReferenceDigest`, `VerifyCopy`).

## Model

| member | source | states |
|---|---|---|
| `PyStr.RStrip` | splitcopy.py:65 | `rstrip()` yields a prefix of the text; everything it removes is whitespace; what it keeps is empty or ends in a non-space |
| `PyStr.RStripUnique` | splitcopy.py:65 | these three properties determine the stripped text uniquely |
| `PyStr.RStripIdempotent` | splitcopy.py:65 | stripping a stripped text changes nothing |
| `PyStr.Split` | splitcopy.py:108 | `split(sep)` gives at least one piece; no piece holds the separator; joining the pieces with the separator gives back the text |
| `PyStr.SplitJoin` | splitcopy.py:108 | splitting pieces that were joined with a separator they do not contain gives back the pieces |
| `PyStr.SplitCount` | splitcopy.py:108 | `split` gives one more piece than the text has separators |
| `PyStr.SplitWithin` | splitcopy.py:108 | every character of a piece comes from the text that was split |
| `PyStr.SplitFirst` | splitcopy.py:68 | the first piece of `split(" ")` is the text before the first space, and it holds no space |
| `PyStr.RSplitOnce` | splitcopy.py:59 | `rsplit('/', 1)` has one part exactly when there is no `/`; otherwise it has two parts, which rebuild the text around the last `/`, and the second part has no `/` |
| `PyStr.Decimal` | splitcopy.py:73 | `"{}".format(n)` of a size: at least one digit, only decimal digits, no leading zero; `DecimalRoundTrip` shows it reads back as the number |
| `PyStr.DecimalRoundTrip` | splitcopy.py:73-74 | the decimal text of the piece size reads back as that size |
| `FnMatch.StarMatchesAll` | splitcopy.py:77 | the pattern `*` matches every name |
| `FnMatch.Matches` | splitcopy.py:77 | `fnmatch` of a name against a pattern of literals, `*` and `?`; its meaning is stated by `StarMatchesAll` and `LiteralStarIsPrefix` |
| `FnMatch.LiteralStarIsPrefix` | splitcopy.py:77 | for a name with no `*`, `?` or `[`, matching `<name>*` is the same as starting with the name, in both directions |
| `SplitCopy.CheckCredentials` | splitcopy.py:48-56 | the run stops exactly when `--user`, `--password` or `--host` is missing; otherwise the credentials are the given values |
| `SplitCopy.BaseName` | splitcopy.py:58-61 | the name holds no `/` and ends the path; it is the whole path when the path has no `/`, and otherwise a `/` comes right before it |
| `SplitCopy.BaseNameAfterLastSlash` | splitcopy.py:58-61 | the name is exactly the text after the last `/` |
| `SplitCopy.SplitSize` | splitcopy.py:70 | `20*size <= file_size < 20*(size+1)`; the size is 0 exactly when the file is shorter than 20 bytes |
| `SplitCopy.SplitSizeUnique` | splitcopy.py:70 | those bounds admit only one size, the quotient of `divmod` |
| `SplitCopy.SplitCommand` | splitcopy.py:73-74 | the local `split -b <size> <path> <name>` command; `SplitCommandCarriesSize` states what it carries |
| `SplitCopy.SplitCommandCarriesSize` | splitcopy.py:70-74 | the `split -b` command carries, right after `split -b `, a run of decimal digits ended by a space, and those digits read back as exactly the size computed on line 70 |
| `SplitCopy.IsPieceOf` | splitcopy.py:77 | the test `fnmatch(entry, name + "*")`; for a name without wildcards it is `startswith` (`ChunkNamesArePrefixed`) |
| `SplitCopy.ChunkNames` | splitcopy.py:75-78 | the collected names are listed entries that match `<file_name>*`, and there are no more of them than entries |
| `SplitCopy.ChunkNamesComplete` | splitcopy.py:75-78 | every listed entry that matches is collected |
| `SplitCopy.ChunkNamesAppend` | splitcopy.py:75-78 | collecting from two listings in a row equals collecting from each and appending the results, so the listing's order is kept |
| `SplitCopy.ChunkNamesArePrefixed` | splitcopy.py:75-78 | for a name without wildcards, the collected names are exactly the listed entries that start with the name |
| `SplitCopy.CollectChunks` | splitcopy.py:75-78 | the loop leaves in `sfiles` exactly the matching entries, in listing order |
| `SplitCopy.StagingDir` | splitcopy.py:81-82 | the staging directory `/var/tmp/splitcopy_<name>`; `PathsDetermineName` and `StagingMeetsDestination` state its properties |
| `SplitCopy.Destination` | splitcopy.py:99-107 | the reassembled file `/var/tmp/<name>`; `PathsDetermineName` and `DestinationOutsideStaging` state its properties |
| `SplitCopy.UploadTarget` | splitcopy.py:134 | the directory every piece is copied into, the staging directory with a trailing `/` |
| `SplitCopy.PathsDetermineName` | splitcopy.py:99-100 | different names give different staging directories and different destinations |
| `SplitCopy.DestinationOutsideStaging` | splitcopy.py:99-102 | the destination is neither the staging directory nor inside it, so the removal at line 101 keeps the destination |
| `SplitCopy.StagingMeetsDestination` | splitcopy.py:99-100 | one run's staging directory is another run's destination exactly when the other name is `splitcopy_` followed by this name |
| `SplitCopy.ReferenceDigestAsWritten` | splitcopy.py:63-68 | as written, the sidecar branch is taken for every path: the result is the sidecar text without trailing whitespace, or a failure when there is no sidecar |
| `SplitCopy.ReferenceDigest` | splitcopy.py:63-68 | as intended, the result is the stripped sidecar text when the sidecar exists; otherwise it is the space-free text before the first space of the `sha1sum` output |
| `SplitCopy.ReferenceDigestDiffersOnlyWithoutSidecar` | splitcopy.py:63-68 | the two versions agree whenever the sidecar exists; without a sidecar the code as written fails |
| `SplitCopy.ParseRemoteDigest` | splitcopy.py:108 | a parsed digest holds no space and no newline, and does not end in whitespace |
| `SplitCopy.ParseRemoteDigestDefined` | splitcopy.py:108 | the digest is defined exactly when the output has a second line and that line holds at least three spaces |
| `SplitCopy.ParseRemoteDigestOfLines` | splitcopy.py:107-108 | for an output made of lines whose second line is made of fields, the parse yields the fourth field, stripped |
| `SplitCopy.Decide` | splitcopy.py:106-118 | not-found exactly when the `ls` test fails; match exactly when the parsed digest equals the reference; mismatch exactly when it differs; a failure exactly when the parse fails |
| `SplitCopy.VerifyCopyAsWritten` | splitcopy.py:106-118 | as written, not-found is never reported |
| `SplitCopy.VerifyCopy` | splitcopy.py:106-118 | as intended, not-found is reported exactly when the `ls` command fails |
| `SplitCopy.MissingFileMisreported` | splitcopy.py:106-108 | when the file is missing, the intended outcome is not-found, but the code decides from the error text `sha1` prints |
| `SplitCopy.MissingFileDigest` | splitcopy.py:107-108 | from `sha1`'s "No such file or directory" text for a path without spaces, line 108 parses `such` as the digest |
| `SplitCopy.MissingFileReportedAsMismatch` | splitcopy.py:106-115 | with `sha1`'s "No such file or directory" text, the code reports a mismatch where the intended outcome is not-found |
| `SplitCopy.ExitStatus` | splitcopy.py:48-87 | the exit status is 0 or 1, and it is 0 exactly when a report was printed |
| `SplitCopy.CommandLine` | splitcopy.py:81-107 | the text sent to the remote shell for each remote command; `CommandLineLayout` and `CommandLineInjective` state its properties |
| `SplitCopy.Prepare` | splitcopy.py:63-82 | the steps up to `mkdir`: the local `sha1sum` when there is no sidecar, the local `split`, the stale-directory removal and `mkdir` (see `PrepareShape`) |
| `SplitCopy.Uploads` | splitcopy.py:88-97 | one copy per collected piece into the staging directory (see `UploadsShape`) |
| `SplitCopy.Finish` | splitcopy.py:99-107 | `cat`, the staging removal, `ls` and, when `ls` succeeds, `sha1` (see `FinishShape`) |
| `SplitCopy.Main` | splitcopy.py:48-118 | the whole run as its steps and its ending, using the intended `ReferenceDigest` and `VerifyCopy` rather than the code as written at lines 63 and 106; its properties are stated by the `Main…` lemmas below |
| `SplitCopy.MainChecksCredentials` | splitcopy.py:48-50 | a run ends with the usage error exactly when a credential is missing; such a run performs no step and exits with 1 |
| `SplitCopy.CommandLineLayout` | splitcopy.py:81-107 | every remote command's text is a fixed lead, the file name, and a trail that is empty except for `cat`, which names the destination |
| `SplitCopy.CommandLineInjective` | splitcopy.py:81-107 | two remote command texts are equal only when they are the same command about the same file name |
| `SplitCopy.MainUsesOneWorkspace` | splitcopy.py:79-107 | every copy of a run goes to `/var/tmp/splitcopy_<name>/` and copies a listed entry that matches `<name>*`; every remote shell command of the run is about the file's own base name |
| `SplitCopy.MainCopiesEveryPiece` | splitcopy.py:79-98 | once the credentials are present, the run issues `mkdir`; it stops with the workspace error exactly when `mkdir` fails, and then nothing is copied or concatenated; otherwise every collected piece is copied to the staging directory |
| `SplitCopy.PrepareShape` | splitcopy.py:63-82 | the steps before the uploads end with `mkdir` of the staging directory, and before it come only local commands and the removal of a stale staging directory |
| `SplitCopy.UploadsShape` | splitcopy.py:88-97 | the uploads are one copy per piece, in the pieces' order, each into `/var/tmp/splitcopy_<name>/` |
| `SplitCopy.FinishShape` | splitcopy.py:99-107 | the closing steps are `cat`, the staging removal and `ls`, followed by `sha1` exactly when `ls` succeeded |
| `SplitCopy.PrepareCopiesNothing` | splitcopy.py:63-82 | the preparation issues `mkdir` of the staging directory, copies and concatenates nothing, and its remote commands are about the file's base name |
| `SplitCopy.SessionCopiesEveryPiece` | splitcopy.py:82-97 | a full session issues `mkdir` and copies every piece into the staging directory |
| `SplitCopy.SessionUsesOneWorkspace` | splitcopy.py:81-107 | in a full session every copy goes to the staging directory and copies one of the pieces, and every remote command is about the file's base name |
| `SplitCopy.SessionPositions` | splitcopy.py:81-107 | in a full session `mkdir` stands exactly at the end of the preparation, the copies exactly right after it, `cat` exactly right after them, the staging removal right after `cat`, and after `cat` only the removal, `ls` and `sha1` |
| `SplitCopy.LifecycleFromPositions` | splitcopy.py:81-107 | any step sequence laid out that way has the workspace lifecycle: `mkdir`, later `cat` immediately followed by the staging removal; every copy after `mkdir` and before `cat`, only copies between the two, and only the removal, `ls` and `sha1` after `cat` |
| `SplitCopy.SessionLifecycle` | splitcopy.py:81-107 | preparation, uploads and finish in that order have that lifecycle |
| `SplitCopy.MainWorkspaceLifecycle` | splitcopy.py:81-107 | a run whose `mkdir` succeeds copies every collected piece into `/var/tmp/splitcopy_<name>/`; it creates the staging directory, later concatenates with `cat` and removes the directory right after; every copy comes after `mkdir` and before `cat`, nothing but copies stands between the two, and nothing but the removal, `ls` and `sha1` follows `cat` |
| `SplitCopy.MainReports` | splitcopy.py:101-118 | match is reported exactly when the remote digest equals the reference; not-found exactly when `ls` fails; the cleanup warning follows the removal's status; the exit status is 0 exactly when a report was printed |

## Findings

| source | as written | input that shows it | evidently intended | confidence | as-written member | corrected member |
|---|---|---|---|---|---|---|
| splitcopy.py:63 | `if args.filepath + ".sha1":` tests a string that is never empty, so the sidecar is always opened and the `sha1sum` fallback (lines 67-68) is dead | any path with no `<path>.sha1` beside it: `open` raises and the run aborts before any copy | open the sidecar only when it exists, otherwise compute the digest locally | high, not executed | `SplitCopy.ReferenceDigestAsWritten` | `SplitCopy.ReferenceDigest` |
| splitcopy.py:106 | `if s_sh.run("ls …"):` tests the pair `(last_ok, output)` that the run returns (line 108 indexes the same call's result as a pair), and a two-element tuple is always true | the reassembled file is missing: `ls` fails, and `sha1` prints `sha1: /var/tmp/f: No such file or directory`; line 108 takes `such` as the digest and the script reports "sha1 does not match" instead of "not found" | test the status, `s_sh.run(…)[0]` | high, not executed | `SplitCopy.MissingFileReportedAsMismatch` | `SplitCopy.VerifyCopy` |

## Left out

- The SSH session, the remote shell and SCP (`Device`, `StartShell`, `SCP`, `scp_put`) are network I/O through a library. Their answers (command status and output) are parameters of `Main`. Their effects appear only as `Shell` and `Put` steps.
- The parallel upload with `asyncio` (lines 88-98) is concurrency. The uploads appear as one `Put` step each, in scheduling order. The code never inspects upload results.
- The exception exits are not modelled. An `scp_put` that raises (line 134) propagates through `asyncio.gather` and `run_until_complete` (line 97): the run stops before `cat`, skips the remote cleanup and exits with 1. `os.path.getsize` (line 69) raises for a missing source file, and `StartShell` (line 80) raises when it cannot connect. `Main` assumes the file exists, the connection opens and every upload returns, so every run past `mkdir` reaches `cat`.
- `split -b`, `sha1sum` and the remote `sha1` are external programs. The layout of the pieces and the SHA-1 computation are not modelled. Their outputs are parameters.
- The number of pieces `split -b` cuts is not modelled; the collected names come from the listing passed in. With a size of `file_size // 20`, a file of at least 400 bytes gives 20 or 21 pieces, while smaller files can give more (39 bytes: size 1, 39 pieces), and a file under 20 bytes gets size 0.
- The order in which the remote shell expands `cat /var/tmp/splitcopy_<name>/*` is decided by the shell. The model does not show that reassembly restores the file's bytes.
- `tempdir` and `change_dir` (lines 136-175) create the local scratch directory, change the working directory and clean up. These are file-system and process effects.
- The `print` messages, the `datetime` timestamps and `dev.close()` are output only.
- The argparse internals (lines 38-47) are a library. Only the presence test of lines 48-50 is modelled.
- The dead fallback of lines 67-68 passes a whole command line to `call` without a shell. `ReferenceDigest` models the evident intent instead: the first field of `sha1sum`'s output.
- SplitCopy.CollectChunks: requires that the file name has no `[`, because `fnmatch` bracket classes are not modelled. `SplitCopy.ChunkNames`, `SplitCopy.IsPieceOf` and `SplitCopy.Main` carry the same requirement. `*` and `?` in a name are modelled as `fnmatch` treats them.
