/** The deterministic logic of `main()` in splitcopy.py: the credential
    check, the base name of the file, the piece size handed to `split -b`,
    the collection of the pieces from the scratch directory, the remote
    staging and destination paths, the reference and remote SHA-1 digests,
    and the final report. The SSH session, the SCP uploads, the local
    commands and the file system are collaborators: what they return is
    given to the functions here as parameters. */
module SplitCopy {
  import opened Wrappers
  import opened PyStr
  import opened FnMatch

  // ---------------------------------------------------------------------
  // Command line (lines 38-56)
  // ---------------------------------------------------------------------

  /** What argparse leaves for the command line: each option is None when
      it was not given and Some(v) for the one-element list `--opt v`
      yields (`nargs=1`); `filepath` is the positional argument. */
  datatype Arguments = Arguments(
    user: Option<string>, password: Option<string>, host: Option<string>,
    filepath: string)

  datatype Credentials = Credentials(user: string, password: string, host: string)

  /** Lines 48-56: the run goes on only when all three options were given
      (a given option is a one-element list, which Python treats as true
      even when its element is the empty string); otherwise the script
      prints its usage line and exits with status 1. */
  function CheckCredentials(args: Arguments): (c: Option<Credentials>)
    ensures c.None? <==> args.user.None? || args.password.None? || args.host.None?
    ensures c.Some? ==>
      && args.user == Some(c.value.user)
      && args.password == Some(c.value.password)
      && args.host == Some(c.value.host)
  {
    if args.user.Some? && args.password.Some? && args.host.Some? then
      Some(Credentials(args.user.value, args.password.value, args.host.value))
    else
      None
  }

  // ---------------------------------------------------------------------
  // Base name (lines 58-61)
  // ---------------------------------------------------------------------

  /** `file_name`: the text after the last `/` of the path when it holds
      one (`rsplit('/', 1)[1]`), otherwise the whole path. A path ending in
      `/` gives the empty name. */
  function BaseName(filepath: string): (name: string)
    ensures '/' !in name
    ensures EndsWith(filepath, name)
    ensures '/' !in filepath ==> name == filepath
    ensures '/' in filepath ==> |name| < |filepath| && filepath[|filepath| - |name| - 1] == '/'
  {
    if '/' in filepath then RSplitOnce(filepath, '/')[1] else filepath
  }

  /** The name is exactly what follows the last `/`. */
  lemma BaseNameAfterLastSlash(filepath: string, i: nat)
    requires i < |filepath| && filepath[i] == '/' && '/' !in filepath[i + 1..]
    ensures BaseName(filepath) == filepath[i + 1..]
  {
    var name := BaseName(filepath);
    var k := |filepath| - |name| - 1;
    assert 0 <= k && filepath[k] == '/';
    assert filepath[k + 1..] == name;
    assert forall j :: i < j < |filepath| ==> filepath[j] == filepath[i + 1..][j - i - 1];
    assert forall j :: k < j < |filepath| ==> filepath[j] == name[j - k - 1];
  }

  // ---------------------------------------------------------------------
  // Piece size (lines 70, 73-74)
  // ---------------------------------------------------------------------

  /** The divisor of line 70. */
  const PieceCount: nat := 20

  /** `split_size = divmod(file_size, 20)[0]`: the largest size of which
      twenty pieces still fit in the file. Nothing guards a file shorter
      than twenty bytes, for which the size is 0. */
  function SplitSize(fileSize: nat): (size: nat)
    ensures PieceCount * size <= fileSize < PieceCount * (size + 1)
    ensures size == 0 <==> fileSize < PieceCount
  {
    fileSize / PieceCount
  }

  /** The bounds of SplitSize's contract leave only one size. */
  lemma SplitSizeUnique(fileSize: nat, size: nat)
    requires PieceCount * size <= fileSize < PieceCount * (size + 1)
    ensures SplitSize(fileSize) == size
  {
    var q := SplitSize(fileSize);
    assert q < size ==> PieceCount * (q + 1) <= PieceCount * size;
    assert size < q ==> PieceCount * (size + 1) <= PieceCount * q;
  }

  /** Lines 73-74: the local command that cuts the file into pieces of
      `split_size` bytes named `<file_name>aa`, `<file_name>ab`, ... */
  function SplitCommand(size: nat, filepath: string, name: string): string
  {
    "split -b " + Decimal(size) + " " + filepath + " " + name
  }

  /** The command carries the size computed on line 70 as the field after
      `split -b `: a run of decimal digits ended by a space, which reads
      back as that size. */
  lemma SplitCommandCarriesSize(fileSize: nat, filepath: string, name: string)
    ensures var command := SplitCommand(SplitSize(fileSize), filepath, name);
      var digits := Decimal(SplitSize(fileSize));
      && StartsWith(command, "split -b ")
      && command[9..9 + |digits|] == digits
      && (forall i :: 9 <= i < 9 + |digits| ==> '0' <= command[i] <= '9')
      && command[9 + |digits|] == ' '
      && DecimalValue(digits) == SplitSize(fileSize)
  {
    DecimalRoundTrip(SplitSize(fileSize));
    var digits := Decimal(SplitSize(fileSize));
    var command := SplitCommand(SplitSize(fileSize), filepath, name);
    assert command == "split -b " + digits + (" " + filepath + " " + name);
  }

  // ---------------------------------------------------------------------
  // Collecting the pieces (lines 75-78)
  // ---------------------------------------------------------------------

  /** The test of line 77: `fnmatch(entry, file_name + "*")`. */
  predicate IsPieceOf(entry: string, name: string)
    requires '[' !in name
  {
    Matches(entry, name + "*")
  }

  /** The entries of the listing that pass the test of line 77, in the
      listing's order: what lines 75-78 leave in `sfiles`. */
  function ChunkNames(listing: seq<string>, name: string): (pieces: seq<string>)
    requires '[' !in name
    ensures |pieces| <= |listing|
    ensures forall x :: x in pieces ==> x in listing && IsPieceOf(x, name)
  {
    if listing == [] then []
    else
      var init := ChunkNames(listing[..|listing| - 1], name);
      var last := listing[|listing| - 1];
      if IsPieceOf(last, name) then init + [last] else init
  }

  /** A listing cut in two gives the pieces of the first part followed by
      those of the second: the filter keeps the listing's order. */
  lemma {:induction false} ChunkNamesAppend(front: seq<string>, back: seq<string>, name: string)
    requires '[' !in name
    ensures ChunkNames(front + back, name) == ChunkNames(front, name) + ChunkNames(back, name)
    decreases |back|
  {
    if back != [] {
      var all := front + back;
      assert all[..|all| - 1] == front + back[..|back| - 1];
      assert all[|all| - 1] == back[|back| - 1];
      ChunkNamesAppend(front, back[..|back| - 1], name);
    } else {
      assert front + back == front;
    }
  }

  /** Every listed entry that passes the test is collected. */
  lemma {:induction false} ChunkNamesComplete(listing: seq<string>, name: string, i: nat)
    requires '[' !in name
    requires i < |listing| && IsPieceOf(listing[i], name)
    ensures listing[i] in ChunkNames(listing, name)
    decreases |listing|
  {
    if i < |listing| - 1 {
      ChunkNamesComplete(listing[..|listing| - 1], name, i);
    }
  }

  /** For a name with no wildcard the pieces are exactly the listed
      entries that start with the name. */
  lemma ChunkNamesArePrefixed(listing: seq<string>, name: string)
    requires IsLiteral(name)
    ensures '[' !in name
    ensures forall x :: x in ChunkNames(listing, name) <==> x in listing && StartsWith(x, name)
  {
    assert '[' !in name by {
      assert forall i :: 0 <= i < |name| ==> name[i] != '[';
    }
    forall x | x in listing && StartsWith(x, name)
      ensures x in ChunkNames(listing, name)
    {
      LiteralStarIsPrefix(x, name);
      var i :| 0 <= i < |listing| && listing[i] == x;
      ChunkNamesComplete(listing, name, i);
    }
    forall x | x in ChunkNames(listing, name)
      ensures StartsWith(x, name)
    {
      LiteralStarIsPrefix(x, name);
    }
  }

  /** Lines 75-78: the loop over the scratch directory's listing that
      appends to `sfiles` every entry matching `<file_name>*`. */
  method CollectChunks(listing: seq<string>, fileName: string) returns (sfiles: seq<string>)
    requires '[' !in fileName
    ensures sfiles == ChunkNames(listing, fileName)
  {
    sfiles := [];
    for i := 0 to |listing|
      invariant sfiles == ChunkNames(listing[..i], fileName)
    {
      var sfile := listing[i];
      assert listing[..i + 1][..i] == listing[..i];
      if Matches(sfile, fileName + "*") {
        sfiles := sfiles + [sfile];
      }
    }
    assert listing[..|listing|] == listing;
  }

  // ---------------------------------------------------------------------
  // Remote paths and commands (lines 81-82, 99-101, 106-107, 134)
  // ---------------------------------------------------------------------

  /** The remote staging directory of lines 81, 82, 99 and 101. */
  function StagingDir(name: string): string
  {
    "/var/tmp/splitcopy_" + name
  }

  /** The reassembled file of lines 99-100, 106 and 107. */
  function Destination(name: string): string
  {
    "/var/tmp/" + name
  }

  /** Line 134: the directory every piece is copied into. */
  function UploadTarget(name: string): string
  {
    StagingDir(name) + "/"
  }

  /** Lines 81 and 101: removing the staging directory. */
  function RemoveStagingCommand(name: string): string
  {
    "rm -rf " + StagingDir(name)
  }

  /** Line 82: creating the staging directory. */
  function MakeStagingCommand(name: string): string
  {
    "mkdir " + StagingDir(name)
  }

  /** Lines 99-100: concatenating everything in the staging directory. */
  function ConcatenateCommand(name: string): string
  {
    "cat " + StagingDir(name) + "/* > " + Destination(name)
  }

  /** Line 106: looking for the reassembled file. */
  function ListCommand(name: string): string
  {
    "ls " + Destination(name)
  }

  /** Line 107: the remote digest of the reassembled file. */
  function DigestCommand(name: string): string
  {
    "sha1 " + Destination(name)
  }

  /** Different file names get different staging directories and
      different destinations. */
  lemma PathsDetermineName(a: string, b: string)
    ensures StagingDir(a) == StagingDir(b) ==> a == b
    ensures Destination(a) == Destination(b) ==> a == b
  {
    assert StagingDir(a)[19..] == a && StagingDir(b)[19..] == b;
    assert Destination(a)[9..] == a && Destination(b)[9..] == b;
  }

  /** The reassembled file is neither the staging directory nor inside
      it, so removing the staging directory on line 101 leaves it. */
  lemma DestinationOutsideStaging(name: string)
    ensures Destination(name) != StagingDir(name)
    ensures !StartsWith(Destination(name), UploadTarget(name))
  {
  }

  /** A staging directory is the destination of another run exactly when
      that run's name is `splitcopy_` followed by this one's: the accepted
      collision between runs on one host. */
  lemma StagingMeetsDestination(name: string, other: string)
    ensures StagingDir(name) == Destination(other) <==> other == "splitcopy_" + name
  {
    if StagingDir(name) == Destination(other) {
      assert Destination(other)[9..] == other;
      assert StagingDir(name)[9..] == "splitcopy_" + name;
    }
  }

  // ---------------------------------------------------------------------
  // Reference digest (lines 63-68)
  // ---------------------------------------------------------------------

  /** Lines 63-68 as written. `sidecar` is the content of the file
      `<filepath>.sha1`, None when there is no such file. The test on line
      63 is the string `filepath + ".sha1"`, which is never empty and so
      always true: the sidecar is opened for every path, and a missing one
      makes `open` raise (None). The fallback of lines 67-68 is never
      reached; it would fail too, since `call` returns an exit status,
      which has no `split`. */
  function ReferenceDigestAsWritten(filepath: string, sidecar: Option<string>): (digest: Option<string>)
    ensures sidecar.None? ==> digest.None?
    ensures sidecar.Some? ==> digest == Some(RStrip(sidecar.value))
  {
    if |filepath + ".sha1"| > 0 then
      match sidecar
      case Some(contents) => Some(RStrip(contents))
      case None => None
    else
      None
  }

  /** The reference digest as lines 63-68 evidently intend it: the
      sidecar's text without trailing whitespace when the sidecar exists,
      otherwise the first space-separated field of the output of
      `sha1sum <filepath>` (given here as `sha1sumOutput`). */
  function ReferenceDigest(sidecar: Option<string>, sha1sumOutput: string): (digest: string)
    ensures sidecar.Some? ==> digest == RStrip(sidecar.value)
    ensures sidecar.None? ==>
      && ' ' !in digest && StartsWith(sha1sumOutput, digest)
      && (|digest| < |sha1sumOutput| ==> sha1sumOutput[|digest|] == ' ')
  {
    match sidecar
    case Some(contents) => RStrip(contents)
    case None =>
      SplitFirst(sha1sumOutput, ' ');
      Split(sha1sumOutput, ' ')[0]
  }

  /** Where the sidecar exists the intended digest is the one the code
      reads; where it does not, the code aborts although a digest could
      have been computed. */
  lemma ReferenceDigestDiffersOnlyWithoutSidecar(filepath: string, sidecar: Option<string>, sha1sumOutput: string)
    ensures sidecar.Some? ==>
      ReferenceDigestAsWritten(filepath, sidecar) == Some(ReferenceDigest(sidecar, sha1sumOutput))
    ensures sidecar.None? ==> ReferenceDigestAsWritten(filepath, sidecar) == None
  {
  }

  // ---------------------------------------------------------------------
  // Remote digest (line 108)
  // ---------------------------------------------------------------------

  /** Line 108: `output.split("\n")[1].split(" ")[3].rstrip()`, None where
      an index is out of range (the IndexError that ends the script). */
  function ParseRemoteDigest(output: string): (digest: Option<string>)
    ensures digest.Some? ==> ' ' !in digest.value && '\n' !in digest.value
    ensures digest.Some? ==> digest.value == [] || !IsSpace(digest.value[|digest.value| - 1])
  {
    var lines := Split(output, '\n');
    if |lines| < 2 then None
    else
      var fields := Split(lines[1], ' ');
      if |fields| < 4 then None
      else
        SplitWithin(output, '\n', 1);
        SplitWithin(lines[1], ' ', 3);
        assert forall c :: c in RStrip(fields[3]) ==> c in fields[3];
        Some(RStrip(fields[3]))
  }

  /** The remote digest is defined exactly when the output has a second
      line and that line holds at least three spaces. */
  lemma ParseRemoteDigestDefined(output: string)
    ensures ParseRemoteDigest(output).Some? <==>
      Count(output, '\n') >= 1 && Count(Split(output, '\n')[1], ' ') >= 3
  {
    SplitCount(output, '\n');
    var lines := Split(output, '\n');
    if |lines| >= 2 {
      SplitCount(lines[1], ' ');
    }
  }

  /** Parsing an output made of lines, whose second line is made of
      space-separated fields, yields the fourth field without its trailing
      whitespace. */
  lemma ParseRemoteDigestOfLines(lines: seq<string>, fields: seq<string>)
    requires |lines| >= 2 && |fields| >= 4
    requires forall i :: 0 <= i < |lines| ==> '\n' !in lines[i]
    requires forall i :: 0 <= i < |fields| ==> ' ' !in fields[i]
    requires lines[1] == Join(fields, ' ')
    ensures ParseRemoteDigest(Join(lines, '\n')) == Some(RStrip(fields[3]))
  {
    SplitJoin(lines, '\n');
    SplitJoin(fields, ' ');
  }

  // ---------------------------------------------------------------------
  // Outcome (lines 106-118)
  // ---------------------------------------------------------------------

  /** The three reports of lines 109-118. */
  datatype Outcome = Match | Mismatch | NotFound

  /** The pair `(last_ok, output)` a remote command run returns, as lines
      107-108 use it. */
  datatype ShellResult = ShellResult(ok: bool, output: string)

  /** Lines 106-118 once the test of line 106 is decided: NotFound when it
      fails; otherwise the digest parsed from the output of `sha1` compared
      with the reference, or None when line 108 raises. */
  function Decide(found: bool, reference: string, sha1Output: string): (o: Option<Outcome>)
    ensures o == Some(NotFound) <==> !found
    ensures o == Some(Match) <==> found && ParseRemoteDigest(sha1Output) == Some(reference)
    ensures o == Some(Mismatch) <==>
      found && ParseRemoteDigest(sha1Output).Some? && ParseRemoteDigest(sha1Output).value != reference
    ensures o.None? <==> found && ParseRemoteDigest(sha1Output).None?
  {
    if !found then Some(NotFound)
    else
      match ParseRemoteDigest(sha1Output)
      case None => None
      case Some(digest) => if reference == digest then Some(Match) else Some(Mismatch)
  }

  /** Python's truth test applied on line 106 to the pair the `ls` run
      returns: a tuple is false only when it is empty, and this one always
      holds two elements, whatever they are. */
  predicate IsTruthy(result: ShellResult)
  {
    |[result.ok, result.output != []]| != 0
  }

  /** Lines 106-118 as written: the test of line 106 is the truth of the
      pair itself. */
  function VerifyCopyAsWritten(ls: ShellResult, reference: string, sha1: ShellResult): (o: Option<Outcome>)
    ensures o != Some(NotFound)
  {
    Decide(IsTruthy(ls), reference, sha1.output)
  }

  /** Lines 106-118 as evidently intended: the test of line 106 is the
      status of the `ls` run. */
  function VerifyCopy(ls: ShellResult, reference: string, sha1: ShellResult): (o: Option<Outcome>)
    ensures o == Some(NotFound) <==> !ls.ok
  {
    Decide(ls.ok, reference, sha1.output)
  }

  /** When the reassembled file is missing, the intended outcome is
      NotFound while the code reports whatever it makes of the error text
      `sha1` prints: a mismatch when that text has a fourth field on its
      second line, an IndexError otherwise. */
  lemma MissingFileMisreported(ls: ShellResult, reference: string, sha1: ShellResult)
    requires !ls.ok
    ensures VerifyCopy(ls, reference, sha1) == Some(NotFound)
    ensures VerifyCopyAsWritten(ls, reference, sha1) == Decide(true, reference, sha1.output)
  {
  }

  /** What `sha1 <path>` prints when the file is missing: the echoed
      command, then `sha1: <path>: No such file or directory`. */
  function MissingFileSha1Output(path: string): string
  {
    Join(["sha1 " + path,
          Join(["sha1:", path + ":", "No", "such", "file", "or", "directory"], ' '),
          ""], '\n')
  }

  /** Line 108 reads `such` as the digest in that error text. */
  lemma MissingFileDigest(path: string)
    requires ' ' !in path && '\n' !in path
    ensures ParseRemoteDigest(MissingFileSha1Output(path)) == Some("such")
  {
    var fields := ["sha1:", path + ":", "No", "such", "file", "or", "directory"];
    assert forall i :: 0 <= i < |fields| ==> ' ' !in fields[i] && '\n' !in fields[i];
    JoinAvoids(fields, ' ', '\n');
    var lines := ["sha1 " + path, Join(fields, ' '), ""];
    assert forall i :: 0 <= i < |lines| ==> '\n' !in lines[i];
    ParseRemoteDigestOfLines(lines, fields);
    assert RStrip("such") == "such";
  }

  /** The concrete case: `ls` fails and `sha1` prints its error text. The
      code takes `such` for the remote digest and reports a mismatch where
      NotFound is intended. */
  lemma MissingFileReportedAsMismatch(path: string, reference: string)
    requires ' ' !in path && '\n' !in path
    requires reference != "such"
    ensures VerifyCopyAsWritten(ShellResult(false, ""), reference,
              ShellResult(false, MissingFileSha1Output(path))) == Some(Mismatch)
    ensures VerifyCopy(ShellResult(false, ""), reference,
              ShellResult(false, MissingFileSha1Output(path))) == Some(NotFound)
  {
    MissingFileDigest(path);
  }

  // ---------------------------------------------------------------------
  // The run (lines 48-118)
  // ---------------------------------------------------------------------

  /** The five remote shell commands of a run. */
  datatype RemoteCommand = RemoveStaging | MakeStaging | Concatenate | ListDestination | DigestDestination

  /** The text sent to the remote shell for a command about the file
      `name`. */
  function CommandLine(command: RemoteCommand, name: string): string
  {
    match command
    case RemoveStaging => RemoveStagingCommand(name)
    case MakeStaging => MakeStagingCommand(name)
    case Concatenate => ConcatenateCommand(name)
    case ListDestination => ListCommand(name)
    case DigestDestination => DigestCommand(name)
  }

  /** The text each command puts before the file name. */
  function Lead(command: RemoteCommand): string
  {
    match command
    case RemoveStaging => "rm -rf " + "/var/tmp/splitcopy_"
    case MakeStaging => "mkdir " + "/var/tmp/splitcopy_"
    case Concatenate => "cat " + "/var/tmp/splitcopy_"
    case ListDestination => "ls " + "/var/tmp/"
    case DigestDestination => "sha1 " + "/var/tmp/"
  }

  /** The text each command puts after the file name: only `cat` names
      the file a second time, as the destination. */
  function Trail(command: RemoteCommand, name: string): string
  {
    if command == Concatenate then "/* > " + Destination(name) else ""
  }

  /** Every command's text is its lead, the file name, and its trail. */
  lemma CommandLineLayout(command: RemoteCommand, name: string)
    ensures CommandLine(command, name) == Lead(command) + name + Trail(command, name)
  {
    match command
    case RemoveStaging =>
      assert Trail(command, name) == [];
    case MakeStaging =>
      assert Trail(command, name) == [];
    case Concatenate =>
      assert Trail(command, name) == "/* > " + Destination(name);
    case ListDestination =>
      assert Trail(command, name) == [];
    case DigestDestination =>
      assert Trail(command, name) == [];
  }

  /** The text of a remote command tells which command it is and which
      file it is about. */
  lemma CommandLineInjective(c: RemoteCommand, d: RemoteCommand, a: string, b: string)
    requires CommandLine(c, a) == CommandLine(d, b)
    ensures c == d && a == b
  {
    var line := CommandLine(c, a);
    CommandLineLayout(c, a);
    CommandLineLayout(d, b);
    assert line[0] == Lead(c)[0] && line[0] == Lead(d)[0];
    assert Lead(c)[0] == Lead(d)[0] ==> c == d;
    var n := |Lead(c)|;
    assert |line| == n + |a| + |Trail(c, a)| == n + |b| + |Trail(c, b)|;
    assert |a| == |b|;
    assert line[n..n + |a|] == a;
    assert line[n..n + |b|] == b;
  }

  /** One action of a run: a command run on the local machine, a command
      run in the remote shell about the file `name` (its text is
      CommandLine(command, name)), or a file copied into a remote
      directory. */
  datatype Step =
    | Local(line: string)
    | Shell(command: RemoteCommand, name: string)
    | Put(file: string, remoteDir: string)

  /** How a run ends, among the ends this model covers: the usage error
      of line 49, the workspace error of lines 83-87, the IndexError line
      108 raises, or one of the reports of lines 109-118 (with the warning
      of lines 103-105 when the staging directory could not be removed).
      The exceptions raised by `os.path.getsize`, `StartShell` and
      `scp_put` (lines 69, 80 and 134) are not among them: the model takes
      the file to exist, the connection to open and every copy to return. */
  datatype Ending =
    | UsageError
    | WorkspaceError
    | DigestUnreadable
    | Reported(outcome: Outcome, cleanupWarning: bool)

  datatype Run = Run(steps: seq<Step>, ending: Ending)

  /** What the collaborators answer: the sidecar's content if it exists,
      the output of `sha1sum`, the file's size, the scratch directory's
      listing after `split`, whether `mkdir` and the final `rm -rf`
      succeeded, and the results of `ls` and `sha1`. */
  datatype Environment = Environment(
    sidecar: Option<string>, sha1sumOutput: string, fileSize: nat,
    listing: seq<string>, mkdirOk: bool, cleanupOk: bool,
    ls: ShellResult, sha1: ShellResult)

  /** Lines 63-82 as far as they act: the local `sha1sum` when there is no
      sidecar, the local `split`, then the removal and the creation of the
      staging directory. */
  function Prepare(filepath: string, env: Environment): seq<Step>
  {
    var name := BaseName(filepath);
    (if env.sidecar.Some? then [] else [Local("sha1sum " + filepath)]) + [
      Local(SplitCommand(SplitSize(env.fileSize), filepath, name)),
      Shell(RemoveStaging, name),
      Shell(MakeStaging, name)]
  }

  /** Lines 89-97: one copy into the staging directory per piece. The
      copies run concurrently; the sequence lists them in the order they
      are scheduled. */
  function Uploads(pieces: seq<string>, name: string): seq<Step>
  {
    seq(|pieces|, i requires 0 <= i < |pieces| => Put(pieces[i], UploadTarget(name)))
  }

  /** Lines 99-107: concatenation, removal of the staging directory, the
      `ls` of the destination and, when it succeeds, its `sha1`. */
  function Finish(name: string, found: bool): seq<Step>
  {
    [Shell(Concatenate, name), Shell(RemoveStaging, name), Shell(ListDestination, name)]
    + (if found then [Shell(DigestDestination, name)] else [])
  }

  /** `main()`, with the reference digest and the test of line 106 as
      evidently intended (ReferenceDigest, VerifyCopy). Every upload is
      taken to return, so a run past `mkdir` always reaches `cat`. */
  function Main(args: Arguments, env: Environment): Run
    requires '[' !in BaseName(args.filepath)
  {
    if CheckCredentials(args).None? then Run([], UsageError)
    else
      var name := BaseName(args.filepath);
      var reference := ReferenceDigest(env.sidecar, env.sha1sumOutput);
      if !env.mkdirOk then Run(Prepare(args.filepath, env), WorkspaceError)
      else
        var steps := Prepare(args.filepath, env) + Uploads(ChunkNames(env.listing, name), name)
          + Finish(name, env.ls.ok);
        match VerifyCopy(env.ls, reference, env.sha1)
        case None => Run(steps, DigestUnreadable)
        case Some(o) => Run(steps, Reported(o, !env.cleanupOk))
  }

  /** The process's exit status: 1 after `sys.exit(1)` (lines 50 and 87)
      and after an uncaught exception, 0 when a report was printed. */
  function ExitStatus(ending: Ending): (code: nat)
    ensures code <= 1
    ensures code == 0 <==> ending.Reported?
  {
    if ending.Reported? then 0 else 1
  }

  /** A run with a missing credential does nothing at all and exits with
      1; with all three it always gets past the check. */
  lemma MainChecksCredentials(args: Arguments, env: Environment)
    requires '[' !in BaseName(args.filepath)
    ensures Main(args, env).ending == UsageError <==>
      args.user.None? || args.password.None? || args.host.None?
    ensures Main(args, env).ending == UsageError ==>
      Main(args, env).steps == [] && ExitStatus(Main(args, env).ending) == 1
  {
  }

  /** The steps of a run, by the branch it takes. */
  lemma MainSteps(args: Arguments, env: Environment)
    requires '[' !in BaseName(args.filepath)
    ensures var name := BaseName(args.filepath);
      var prepare := Prepare(args.filepath, env);
      var session := prepare + Uploads(ChunkNames(env.listing, name), name) + Finish(name, env.ls.ok);
      Main(args, env).steps ==
        if CheckCredentials(args).None? then [] else if !env.mkdirOk then prepare else session
  {
  }

  /** The preparation ends with the creation of the staging directory;
      before it come only local commands and the reset of the directory. */
  lemma PrepareShape(filepath: string, env: Environment)
    ensures var steps := Prepare(filepath, env);
      && |steps| >= 3 && steps[|steps| - 1] == Shell(MakeStaging, BaseName(filepath))
      && (forall k :: 0 <= k < |steps| - 1 ==>
            steps[k].Local? || steps[k] == Shell(RemoveStaging, BaseName(filepath)))
  {
  }

  /** The uploads are one copy of each piece into the staging directory,
      in the pieces' order. */
  lemma UploadsShape(pieces: seq<string>, name: string)
    ensures var steps := Uploads(pieces, name);
      && |steps| == |pieces|
      && (forall k :: 0 <= k < |steps| ==> steps[k] == Put(pieces[k], UploadTarget(name)))
  {
  }

  /** The closing steps: `cat`, the removal of the staging directory,
      `ls`, and `sha1` exactly when `ls` found the file. */
  lemma FinishShape(name: string, found: bool)
    ensures var steps := Finish(name, found);
      && |steps| == (if found then 4 else 3)
      && steps[0] == Shell(Concatenate, name) && steps[1] == Shell(RemoveStaging, name)
      && steps[2] == Shell(ListDestination, name)
      && (found ==> steps[3] == Shell(DigestDestination, name))
  {
  }

  /** The preparation creates the staging directory, copies and
      concatenates nothing, and runs remote commands only about the file's
      base name. */
  lemma PrepareCopiesNothing(filepath: string, env: Environment)
    ensures var steps, name := Prepare(filepath, env), BaseName(filepath);
      && Shell(MakeStaging, name) in steps
      && (forall st :: st in steps ==> !st.Put? && st != Shell(Concatenate, name))
      && (forall st :: st in steps && st.Shell? ==> st.name == name)
  {
    var steps, name := Prepare(filepath, env), BaseName(filepath);
    PrepareShape(filepath, env);
    assert steps[|steps| - 1] == Shell(MakeStaging, name);
    forall st | st in steps
      ensures !st.Put? && st != Shell(Concatenate, name)
      ensures st.Shell? ==> st.name == name
    {
      var k :| 0 <= k < |steps| && steps[k] == st;
    }
  }

  /** In a full session every copy goes to the staging directory and
      copies one of the pieces, and every remote command is about the
      file's base name. */
  lemma SessionUsesOneWorkspace(filepath: string, env: Environment, pieces: seq<string>, found: bool,
                                steps: seq<Step>)
    requires steps == Prepare(filepath, env) + Uploads(pieces, BaseName(filepath))
      + Finish(BaseName(filepath), found)
    ensures var name := BaseName(filepath);
      && (forall st :: st in steps && st.Put? ==> st.remoteDir == UploadTarget(name) && st.file in pieces)
      && (forall st :: st in steps && st.Shell? ==> st.name == name)
  {
    var name := BaseName(filepath);
    var prepare, uploads, finish := Prepare(filepath, env), Uploads(pieces, name), Finish(name, found);
    PrepareCopiesNothing(filepath, env);
    UploadsShape(pieces, name);
    FinishShape(name, found);
    forall st | st in steps
      ensures st.Put? ==> st.remoteDir == UploadTarget(name) && st.file in pieces
      ensures st.Shell? ==> st.name == name
    {
      if st in uploads {
        var k :| 0 <= k < |uploads| && uploads[k] == st;
      } else if st in finish {
        var k :| 0 <= k < |finish| && finish[k] == st;
      }
    }
  }

  /** Every copy of a run goes to `/var/tmp/splitcopy_<name>/` and copies
      a collected piece, and every remote shell command is about the file's
      base name. */
  lemma MainUsesOneWorkspace(args: Arguments, env: Environment)
    requires '[' !in BaseName(args.filepath)
    ensures var name := BaseName(args.filepath);
      var run := Main(args, env);
      && (forall st :: st in run.steps && st.Put? ==>
            st.remoteDir == UploadTarget(name) && IsPieceOf(st.file, name) && st.file in env.listing)
      && (forall st :: st in run.steps && st.Shell? ==> st.name == name)
  {
    var name := BaseName(args.filepath);
    var steps := Main(args, env).steps;
    MainSteps(args, env);
    PrepareCopiesNothing(args.filepath, env);
    if CheckCredentials(args).Some? && env.mkdirOk {
      SessionUsesOneWorkspace(args.filepath, env, ChunkNames(env.listing, name), env.ls.ok, steps);
    }
  }

  /** A full session creates the staging directory and copies every piece
      into it. */
  lemma SessionCopiesEveryPiece(filepath: string, env: Environment, pieces: seq<string>, found: bool)
    ensures var name := BaseName(filepath);
      var steps := Prepare(filepath, env) + Uploads(pieces, name) + Finish(name, found);
      && Shell(MakeStaging, name) in steps
      && (forall x :: x in pieces ==> Put(x, UploadTarget(name)) in steps)
  {
    var name := BaseName(filepath);
    var prepare, uploads := Prepare(filepath, env), Uploads(pieces, name);
    var steps := prepare + uploads + Finish(name, found);
    PrepareCopiesNothing(filepath, env);
    UploadsShape(pieces, name);
    forall x | x in pieces ensures Put(x, UploadTarget(name)) in steps {
      var i :| 0 <= i < |pieces| && pieces[i] == x;
      assert steps[|prepare| + i] == uploads[i];
    }
  }

  /** The staging directory is created in every run that passes the
      credential check; when its creation fails nothing is copied or
      concatenated, and otherwise every collected piece is copied. */
  lemma MainCopiesEveryPiece(args: Arguments, env: Environment)
    requires '[' !in BaseName(args.filepath)
    requires CheckCredentials(args).Some?
    ensures var name := BaseName(args.filepath);
      var run := Main(args, env);
      && Shell(MakeStaging, name) in run.steps
      && (run.ending == WorkspaceError <==> !env.mkdirOk)
      && (run.ending == WorkspaceError ==>
            forall st :: st in run.steps ==> !st.Put? && st != Shell(Concatenate, name))
      && (run.ending != WorkspaceError ==>
            forall x :: x in ChunkNames(env.listing, name) ==> Put(x, UploadTarget(name)) in run.steps)
  {
    var name := BaseName(args.filepath);
    MainSteps(args, env);
    PrepareCopiesNothing(args.filepath, env);
    SessionCopiesEveryPiece(args.filepath, env, ChunkNames(env.listing, name), env.ls.ok);
  }

  /** The staging directory is created, later the pieces are concatenated,
      and right after that the directory is removed. */
  ghost predicate CreatesThenReassembles(steps: seq<Step>, name: string)
  {
    exists m, k :: 0 <= m < k && k + 1 < |steps| && steps[m] == Shell(MakeStaging, name)
      && steps[k] == Shell(Concatenate, name) && steps[k + 1] == Shell(RemoveStaging, name)
  }

  /** Every copy comes after the creation of the staging directory. */
  ghost predicate CopiesAfterCreation(steps: seq<Step>, name: string)
  {
    forall i, j ::
      (0 <= i < |steps| && 0 <= j < |steps| && steps[i].Put? && steps[j] == Shell(MakeStaging, name))
      ==> j < i
  }

  /** Only copies come between the creation and `cat`. */
  ghost predicate OnlyCopiesBetween(steps: seq<Step>, name: string)
  {
    forall i, k, j ::
      (0 <= i < k < j < |steps| && steps[i] == Shell(MakeStaging, name)
       && steps[j] == Shell(Concatenate, name))
      ==> steps[k].Put?
  }

  /** Every copy comes before `cat`. */
  ghost predicate CopiesBeforeReassembly(steps: seq<Step>, name: string)
  {
    forall i, j ::
      (0 <= i < |steps| && 0 <= j < |steps| && steps[i].Put? && steps[j] == Shell(Concatenate, name))
      ==> i < j
  }

  /** After `cat` come only the removal of the staging directory and the
      commands on the destination. */
  ghost predicate OnlyCleanupAfter(steps: seq<Step>, name: string)
  {
    forall i, j :: 0 <= i < j < |steps| && steps[i] == Shell(Concatenate, name) ==>
      steps[j] in [Shell(RemoveStaging, name), Shell(ListDestination, name), Shell(DigestDestination, name)]
  }

  /** The workspace's life along a sequence of steps: created, filled
      with copies, reassembled, removed. */
  ghost predicate WorkspaceLifecycle(steps: seq<Step>, name: string)
  {
    && CreatesThenReassembles(steps, name)
    && CopiesAfterCreation(steps, name)
    && OnlyCopiesBetween(steps, name)
    && CopiesBeforeReassembly(steps, name)
    && OnlyCleanupAfter(steps, name)
  }

  /** Where each kind of step stands in a full session: `mkdir` last in
      the preparation, the copies right after it, then `cat`, followed by
      the removal of the staging directory and the commands on the
      destination. */
  lemma SessionPositions(filepath: string, env: Environment, pieces: seq<string>, found: bool,
                         steps: seq<Step>)
    requires steps == Prepare(filepath, env) + Uploads(pieces, BaseName(filepath))
      + Finish(BaseName(filepath), found)
    ensures var name := BaseName(filepath);
      var p, u := |Prepare(filepath, env)|, |pieces|;
      && 1 <= p && p + u + 1 < |steps|
      && (forall k :: 0 <= k < |steps| ==> (steps[k] == Shell(MakeStaging, name) <==> k == p - 1))
      && (forall k :: 0 <= k < |steps| ==> (steps[k] == Shell(Concatenate, name) <==> k == p + u))
      && (forall k :: 0 <= k < |steps| ==> (steps[k].Put? <==> p <= k < p + u))
      && (forall k :: p + u < k < |steps| ==>
            steps[k] in [Shell(RemoveStaging, name), Shell(ListDestination, name), Shell(DigestDestination, name)])
      && steps[p + u + 1] == Shell(RemoveStaging, name)
  {
    var name := BaseName(filepath);
    var prepare, uploads, finish := Prepare(filepath, env), Uploads(pieces, name), Finish(name, found);
    var p, u := |prepare|, |uploads|;
    PrepareShape(filepath, env);
    UploadsShape(pieces, name);
    FinishShape(name, found);
    forall k | 0 <= k < |steps|
      ensures steps[k] == Shell(MakeStaging, name) <==> k == p - 1
      ensures steps[k] == Shell(Concatenate, name) <==> k == p + u
      ensures steps[k].Put? <==> p <= k < p + u
      ensures p + u < k ==>
        steps[k] in [Shell(RemoveStaging, name), Shell(ListDestination, name), Shell(DigestDestination, name)]
    {
      if k < p {
        assert steps[k] == prepare[k];
      } else if k < p + u {
        assert steps[k] == uploads[k - p];
      } else {
        assert steps[k] == finish[k - p - u];
      }
    }
    assert steps[p + u + 1] == finish[1];
  }

  /** Any sequence of steps laid out as a session (`mkdir` at `p - 1`,
      copies exactly at `p` to `p + u - 1`, `cat` at `p + u`, then only
      the removal and the commands on the destination, the removal first)
      keeps the workspace's life. */
  lemma LifecycleFromPositions(steps: seq<Step>, name: string, p: nat, u: nat)
    requires 1 <= p && p + u + 1 < |steps|
    requires forall k :: 0 <= k < |steps| ==> (steps[k] == Shell(MakeStaging, name) <==> k == p - 1)
    requires forall k :: 0 <= k < |steps| ==> (steps[k] == Shell(Concatenate, name) <==> k == p + u)
    requires forall k :: 0 <= k < |steps| ==> (steps[k].Put? <==> p <= k < p + u)
    requires forall k :: p + u < k < |steps| ==>
      steps[k] in [Shell(RemoveStaging, name), Shell(ListDestination, name), Shell(DigestDestination, name)]
    requires steps[p + u + 1] == Shell(RemoveStaging, name)
    ensures WorkspaceLifecycle(steps, name)
  {
    assert steps[p - 1] == Shell(MakeStaging, name) && steps[p + u] == Shell(Concatenate, name);
  }

  /** Preparation, copies and closing steps in this order keep the
      workspace's life. */
  lemma SessionLifecycle(filepath: string, env: Environment, pieces: seq<string>, found: bool)
    ensures var name := BaseName(filepath);
      WorkspaceLifecycle(Prepare(filepath, env) + Uploads(pieces, name) + Finish(name, found), name)
  {
    var name := BaseName(filepath);
    var steps := Prepare(filepath, env) + Uploads(pieces, name) + Finish(name, found);
    SessionPositions(filepath, env, pieces, found, steps);
    LifecycleFromPositions(steps, name, |Prepare(filepath, env)|, |pieces|);
  }

  /** Every run that created the workspace keeps its life as
      WorkspaceLifecycle describes it, and copies every collected piece
      into the staging directory. */
  lemma MainWorkspaceLifecycle(args: Arguments, env: Environment)
    requires '[' !in BaseName(args.filepath)
    requires CheckCredentials(args).Some? && env.mkdirOk
    ensures var name := BaseName(args.filepath);
      var steps := Main(args, env).steps;
      && WorkspaceLifecycle(steps, name)
      && (forall x :: x in ChunkNames(env.listing, name) ==> Put(x, UploadTarget(name)) in steps)
  {
    var name := BaseName(args.filepath);
    MainSteps(args, env);
    SessionLifecycle(args.filepath, env, ChunkNames(env.listing, name), env.ls.ok);
    SessionCopiesEveryPiece(args.filepath, env, ChunkNames(env.listing, name), env.ls.ok);
  }

  /** A report of a match means the remote digest is the reference; the
      cleanup warning follows the removal's status; the exit status is 0
      exactly when a report was printed. */
  lemma MainReports(args: Arguments, env: Environment)
    requires '[' !in BaseName(args.filepath)
    requires CheckCredentials(args).Some?
    ensures var run := Main(args, env);
      var reference := ReferenceDigest(env.sidecar, env.sha1sumOutput);
      && (run.ending == Reported(Match, !env.cleanupOk) <==>
            env.mkdirOk && env.ls.ok && ParseRemoteDigest(env.sha1.output) == Some(reference))
      && (run.ending.Reported? && run.ending.outcome == NotFound <==> env.mkdirOk && !env.ls.ok)
      && (run.ending.Reported? ==> run.ending.cleanupWarning == !env.cleanupOk)
      && (ExitStatus(run.ending) == 0 <==>
            env.mkdirOk && (!env.ls.ok || ParseRemoteDigest(env.sha1.output).Some?))
  {
  }
}
