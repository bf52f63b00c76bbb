/**
 * The part of the operating system the actors touch: a map from path to the
 * file's lines (as `readlines()` returns them), a log the actors append to,
 * and the failures an access can raise. Failures are injected: a machine
 * carries a fixed table saying which accesses fail and with which exception;
 * an access not in that table behaves as POSIX would on the file map.
 */
module FileSystem {
  import opened Wrappers

  type Path = string
  type Line = string
  type Files = map<Path, seq<Line>>

  /** The exception an access raises, by the Python class that catches it. */
  datatype IoError =
    | NotFound    // OSError/IOError with errno ENOENT
    | OsError     // any other OSError/IOError: permission denied, disk full, a directory, ...
    | ValueError  // ValueError, such as a UnicodeDecodeError while reading text

  /** One file-system call: `open(p, 'r')` + `readlines()`, `open(p, 'w')` + `writelines()`, `os.remove(p)`. */
  datatype Access = Read(path: Path) | Write(path: Path) | Remove(path: Path)

  /** A record handed to the actor's logger. `cause` stands for the text of the exception. */
  datatype LogRecord = Info(message: string) | Error(message: string, cause: IoError)

  /** What one run of an actor leaves behind: the files, the log, and the exception it let escape. */
  datatype Outcome = Outcome(files: Files, log: seq<LogRecord>, raised: Option<IoError>)

  /** Reading the lines of `p`. */
  function ReadOf(files: Files, faults: map<Access, IoError>, p: Path): Result<seq<Line>, IoError> {
    if Read(p) in faults then Failure(faults[Read(p)])
    else if p in files then Success(files[p])
    else Failure(NotFound)
  }

  /** Overwriting `p` with `lines` (creating it when absent); a failed write leaves the map as it was. */
  function WriteOf(files: Files, faults: map<Access, IoError>, p: Path, lines: seq<Line>): Result<Files, IoError> {
    if Write(p) in faults then Failure(faults[Write(p)])
    else Success(files[p := lines])
  }

  /** Deleting `p`. */
  function RemoveOf(files: Files, faults: map<Access, IoError>, p: Path): Result<Files, IoError> {
    if Remove(p) in faults then Failure(faults[Remove(p)])
    else if p in files then Success(files - {p})
    else Failure(NotFound)
  }

  /** `s` ends with `suffix`. */
  predicate EndsWith(s: string, suffix: string) {
    |suffix| <= |s| && s[|s| - |suffix|..] == suffix
  }

  /**
   * `os.path.join(a, b)` on POSIX: an absolute `b` replaces `a`; otherwise `b`
   * is appended to `a`, with a `/` between them unless `a` is empty or
   * already ends with one.
   */
  function PathJoin(a: Path, b: Path): (r: Path)
    ensures EndsWith(r, b)
    ensures |b| > 0 && b[0] == '/' ==> r == b
    ensures !(|b| > 0 && b[0] == '/') ==> |a| <= |r| && r[..|a|] == a
    ensures !(|b| > 0 && b[0] == '/') && |a| > 0 && a[|a| - 1] != '/' ==> r == a + "/" + b
    ensures !(|b| > 0 && b[0] == '/') && (a == "" || a[|a| - 1] == '/') ==> r == a + b
  {
    if |b| > 0 && b[0] == '/' then b
    else if a == "" || a[|a| - 1] == '/' then a + b
    else a + "/" + b
  }

  /** The machine the actors run on: its files, the log, and which accesses fail. */
  class Machine {
    var files: Files
    var log: seq<LogRecord>
    const faults: map<Access, IoError>

    constructor (files: Files, faults: map<Access, IoError>)
      ensures this.files == files && this.faults == faults && log == []
    {
      this.files := files;
      this.faults := faults;
      log := [];
    }

    /** `open(p, 'r').readlines()`. */
    method ReadLines(p: Path) returns (r: Result<seq<Line>, IoError>)
      ensures r.Success? <==> Read(p) !in faults && p in files
      ensures r.Success? ==> r.value == files[p]
      ensures r.Failure? && Read(p) !in faults ==> r.error == NotFound
      ensures r.Failure? && Read(p) in faults ==> r.error == faults[Read(p)]
      ensures r == ReadOf(files, faults, p)
    {
      r := ReadOf(files, faults, p);
    }

    /** `open(p, 'w').writelines(lines)`; on failure the file map is unchanged. */
    method WriteLines(p: Path, lines: seq<Line>) returns (err: Option<IoError>)
      modifies this`files
      ensures err == None <==> Write(p) !in faults
      ensures err == None ==> files == old(files)[p := lines]
      ensures err != None ==> files == old(files) && err == Some(faults[Write(p)])
    {
      match WriteOf(files, faults, p, lines)
      case Success(f) =>
        files := f;
        err := None;
      case Failure(e) =>
        err := Some(e);
    }

    /** `os.remove(p)`. */
    method RemoveFile(p: Path) returns (err: Option<IoError>)
      modifies this`files
      ensures err == None <==> Remove(p) !in faults && p in old(files)
      ensures err == None ==> files == old(files) - {p}
      ensures err != None ==> files == old(files)
      ensures err != None && Remove(p) !in faults ==> err == Some(NotFound)
      ensures err != None && Remove(p) in faults ==> err == Some(faults[Remove(p)])
    {
      match RemoveOf(files, faults, p)
      case Success(f) =>
        files := f;
        err := None;
      case Failure(e) =>
        err := Some(e);
    }

    /** Hands `record` to the logger. */
    method Append(record: LogRecord)
      modifies this`log
      ensures log == old(log) + [record]
    {
      log := log + [record];
    }
  }
}
