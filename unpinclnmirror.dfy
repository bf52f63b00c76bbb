/**
 * The `unpin_cln_mirror` actor: after the upgrade it deletes the pinned CLN
 * mirror list, on the host and inside the target userspace, and drops every
 * line that points at it from the two up2date configurations.
 */
module UnpinClnMirror {
  import opened Wrappers
  import opened Text
  import opened FileSystem

  /** Lines that mention this path refer to the pinned mirror list. */
  const MirrorlistMarker: string := "etc/mirrorlist"

  /** The two mirror lists to delete, in the order they are tried. */
  function MirrorlistPaths(targetUserspace: Path): (r: seq<Path>)
    ensures |r| == 2 && r[0] == "/etc/mirrorlist" && EndsWith(r[1], "etc/mirrorlist")
  {
    ["/etc/mirrorlist", PathJoin(targetUserspace, "etc/mirrorlist")]
  }

  /** The two up2date configurations to rewrite, in the order they are processed. */
  function Up2datePaths(targetUserspace: Path): (r: seq<Path>)
    ensures |r| == 2 && r[0] == "/etc/sysconfig/rhn/up2date" && EndsWith(r[1], "etc/sysconfig/rhn/up2date")
  {
    ["/etc/sysconfig/rhn/up2date", PathJoin(targetUserspace, "etc/sysconfig/rhn/up2date")]
  }

  /** `a` can be obtained from `b` by deleting elements. */
  ghost predicate IsSubsequence<T>(a: seq<T>, b: seq<T>)
    decreases |b|
  {
    a == [] || (|b| > 0 && ((a[0] == b[0] && IsSubsequence(a[1..], b[1..])) || IsSubsequence(a, b[1..])))
  }

  /**
   * `[line for line in lines if 'etc/mirrorlist' not in line]`: no kept line
   * mentions the mirror list, every line that does not is kept, and nothing
   * new appears.
   */
  function DropMirrorlist(lines: seq<Line>): (r: seq<Line>)
    ensures |r| <= |lines|
    ensures forall i | 0 <= i < |r| :: !Contains(r[i], MirrorlistMarker)
    ensures forall i | 0 <= i < |lines| && !Contains(lines[i], MirrorlistMarker) :: lines[i] in r
    ensures forall i | 0 <= i < |r| :: r[i] in lines
  {
    if lines == [] then
      []
    else
      var rest := DropMirrorlist(lines[1..]);
      assert forall i | 1 <= i < |lines| :: lines[i] == lines[1..][i - 1];
      if Contains(lines[0], MirrorlistMarker) then rest else [lines[0]] + rest
  }

  /** The filter keeps the relative order of the lines it keeps. */
  lemma {:induction false} DropMirrorlistIsSubsequence(lines: seq<Line>)
    ensures IsSubsequence(DropMirrorlist(lines), lines)
  {
    if lines != [] {
      DropMirrorlistIsSubsequence(lines[1..]);
      var rest := DropMirrorlist(lines[1..]);
      if !Contains(lines[0], MirrorlistMarker) {
        assert ([lines[0]] + rest)[1..] == rest;
      } else if rest != [] {
        assert IsSubsequence(rest, lines[1..]);
      }
    }
  }

  /** Filtering line by line: the result on a concatenation is the concatenation of the results. */
  lemma {:induction false} DropMirrorlistOfConcat(a: seq<Line>, b: seq<Line>)
    ensures DropMirrorlist(a + b) == DropMirrorlist(a) + DropMirrorlist(b)
  {
    if a == [] {
      assert a + b == b;
    } else {
      assert (a + b)[0] == a[0];
      assert (a + b)[1..] == a[1..] + b;
      DropMirrorlistOfConcat(a[1..], b);
    }
  }

  /** A file in which no line mentions the mirror list is left as it is. */
  lemma {:induction false} DropMirrorlistKeepsClean(lines: seq<Line>)
    requires forall i | 0 <= i < |lines| :: !Contains(lines[i], MirrorlistMarker)
    ensures DropMirrorlist(lines) == lines
  {
    if lines != [] {
      assert forall i | 0 <= i < |lines[1..]| :: lines[1..][i] == lines[i + 1];
      DropMirrorlistKeepsClean(lines[1..]);
    }
  }

  /** Rewriting a file a second time changes nothing. */
  lemma DropMirrorlistIdempotent(lines: seq<Line>)
    ensures DropMirrorlist(DropMirrorlist(lines)) == DropMirrorlist(lines)
  {
    DropMirrorlistKeepsClean(DropMirrorlist(lines));
  }

  /** The message logged for a mirror list that cannot be removed. */
  function RemoveFailedMessage(p: Path): string {
    "Can't remove " + p + ", file does not exist, doing nothing"
  }

  /** The message logged for an up2date file that cannot be rewritten. */
  function UpdateFailedMessage(p: Path): string {
    "Can update " + p + " file, doing nothing"
  }

  /** One pass of the first loop: remove `p`; an OSError is logged, a ValueError escapes. */
  function RemoveStep(faults: map<Access, IoError>, o: Outcome, p: Path): (r: Outcome)
    ensures r.files.Keys <= o.files.Keys && o.files.Keys - {p} <= r.files.Keys
    ensures r.raised == o.raised || (o.raised == None && r.raised == Some(ValueError))
    ensures |r.log| <= |o.log| + 1
  {
    if o.raised.Some? then o
    else match RemoveOf(o.files, faults, p)
      case Success(f) => o.(files := f)
      case Failure(ValueError) => o.(raised := Some(ValueError))
      case Failure(_) => o.(log := o.log + [Info(RemoveFailedMessage(p))])
  }

  /** One pass of the second loop: read `p`, filter its lines, write them back; any failure is logged. */
  function RewriteStep(faults: map<Access, IoError>, o: Outcome, p: Path): (r: Outcome)
    ensures r.files.Keys == o.files.Keys
    ensures r.raised == o.raised
    ensures |r.log| <= |o.log| + 1
  {
    if o.raised.Some? then o
    else match ReadOf(o.files, faults, p)
      case Failure(_) => o.(log := o.log + [Info(UpdateFailedMessage(p))])
      case Success(lines) =>
        match WriteOf(o.files, faults, p, DropMirrorlist(lines))
        case Failure(_) => o.(log := o.log + [Info(UpdateFailedMessage(p))])
        case Success(f) => o.(files := f)
  }

  /** The first loop over `paths`, in order. */
  function RemoveAll(faults: map<Access, IoError>, o: Outcome, paths: seq<Path>): Outcome
    decreases |paths|
  {
    if paths == [] then o
    else RemoveStep(faults, RemoveAll(faults, o, paths[..|paths| - 1]), paths[|paths| - 1])
  }

  /** The second loop over `paths`, in order. */
  function RewriteAll(faults: map<Access, IoError>, o: Outcome, paths: seq<Path>): Outcome
    decreases |paths|
  {
    if paths == [] then o
    else RewriteStep(faults, RewriteAll(faults, o, paths[..|paths| - 1]), paths[|paths| - 1])
  }

  /**
   * `process` as a function of the machine before it runs: the two removals,
   * then the two rewrites, in list order.
   */
  function ProcessOutcome(faults: map<Access, IoError>, files: Files, log: seq<LogRecord>, targetUserspace: Path): (r: Outcome)
    ensures r.files.Keys <= files.Keys
    ensures r.raised == None || r.raised == Some(ValueError)
    ensures |r.log| <= |log| + 4
  {
    var m, u := MirrorlistPaths(targetUserspace), Up2datePaths(targetUserspace);
    RewriteStep(faults, RewriteStep(faults,
      RemoveStep(faults, RemoveStep(faults, Outcome(files, log, None), m[0]), m[1]), u[0]), u[1])
  }

  /** The two loops of `process`, run over the two path lists, are the four steps of `ProcessOutcome`. */
  lemma LoopsUnfold(faults: map<Access, IoError>, files: Files, log: seq<LogRecord>, targetUserspace: Path)
    ensures var m, u := MirrorlistPaths(targetUserspace), Up2datePaths(targetUserspace);
      RewriteAll(faults, RemoveAll(faults, Outcome(files, log, None), m), u) ==
        ProcessOutcome(faults, files, log, targetUserspace)
  {
    var m, u := MirrorlistPaths(targetUserspace), Up2datePaths(targetUserspace);
    var o0 := Outcome(files, log, None);
    assert m[..1] == [m[0]] && m[..1][..0] == [];
    assert RemoveAll(faults, o0, m[..1]) == RemoveStep(faults, o0, m[0]);
    var o2 := RemoveAll(faults, o0, m);
    assert o2 == RemoveStep(faults, RemoveStep(faults, o0, m[0]), m[1]);
    assert u[..1] == [u[0]] && u[..1][..0] == [];
    assert RewriteAll(faults, o2, u[..1]) == RewriteStep(faults, o2, u[0]);
  }

  /** After an exception escaped, neither loop does anything more. */
  lemma {:induction false} AbortedStaysAborted(faults: map<Access, IoError>, o: Outcome, paths: seq<Path>)
    requires o.raised.Some?
    ensures RemoveAll(faults, o, paths) == o
    ensures RewriteAll(faults, o, paths) == o
    decreases |paths|
  {
    if paths != [] {
      AbortedStaysAborted(faults, o, paths[..|paths| - 1]);
    }
  }

  /** `process`, run on machine `m`; `targetUserspace` is what `get_target_userspace_path()` returns. */
  method Process(m: Machine, targetUserspace: Path) returns (raised: Option<IoError>)
    modifies m
    ensures Outcome(m.files, m.log, raised) == ProcessOutcome(m.faults, old(m.files), old(m.log), targetUserspace)
  {
    LoopsUnfold(m.faults, m.files, m.log, targetUserspace);
    raised := RemoveMirrorlists(m, MirrorlistPaths(targetUserspace));
    if raised.Some? {
      AbortedStaysAborted(m.faults, Outcome(m.files, m.log, raised), Up2datePaths(targetUserspace));
      return;
    }
    RewriteUp2dates(m, Up2datePaths(targetUserspace));
  }

  /** The first loop of `process`: remove each path; an OSError is logged, a ValueError ends the run. */
  method RemoveMirrorlists(m: Machine, mirrorlists: seq<Path>) returns (raised: Option<IoError>)
    modifies m
    ensures Outcome(m.files, m.log, raised) == RemoveAll(m.faults, Outcome(old(m.files), old(m.log), None), mirrorlists)
  {
    ghost var start := Outcome(m.files, m.log, None);
    raised := None;
    for i := 0 to |mirrorlists|
      invariant Outcome(m.files, m.log, None) == RemoveAll(m.faults, start, mirrorlists[..i])
    {
      assert mirrorlists[..i + 1][..i] == mirrorlists[..i];
      var err := m.RemoveFile(mirrorlists[i]);
      if err == Some(ValueError) {
        raised := err;
        AbortedStaysAborted(m.faults, Outcome(m.files, m.log, raised), mirrorlists[i + 1..]);
        RemoveAllOfConcat(m.faults, start, mirrorlists[..i + 1], mirrorlists[i + 1..]);
        assert mirrorlists[..i + 1] + mirrorlists[i + 1..] == mirrorlists;
        return;
      } else if err.Some? {
        m.Append(Info(RemoveFailedMessage(mirrorlists[i])));
      }
    }
    assert mirrorlists[..|mirrorlists|] == mirrorlists;
  }

  /** The second loop of `process`: filter each file in place; every failure is logged. */
  method RewriteUp2dates(m: Machine, up2dates: seq<Path>)
    modifies m
    ensures Outcome(m.files, m.log, None) == RewriteAll(m.faults, Outcome(old(m.files), old(m.log), None), up2dates)
  {
    ghost var start := Outcome(m.files, m.log, None);
    for i := 0 to |up2dates|
      invariant Outcome(m.files, m.log, None) == RewriteAll(m.faults, start, up2dates[..i])
    {
      assert up2dates[..i + 1][..i] == up2dates[..i];
      var read := m.ReadLines(up2dates[i]);
      if read.Failure? {
        m.Append(Info(UpdateFailedMessage(up2dates[i])));
      } else {
        var lines := DropMirrorlist(read.value);
        var err := m.WriteLines(up2dates[i], lines);
        if err.Some? {
          m.Append(Info(UpdateFailedMessage(up2dates[i])));
        }
      }
    }
    assert up2dates[..|up2dates|] == up2dates;
  }

  /** The first loop over `a + b` is the loop over `a` followed by the loop over `b`. */
  lemma {:induction false} RemoveAllOfConcat(faults: map<Access, IoError>, o: Outcome, a: seq<Path>, b: seq<Path>)
    ensures RemoveAll(faults, o, a + b) == RemoveAll(faults, RemoveAll(faults, o, a), b)
    decreases |b|
  {
    if b == [] {
      assert a + b == a;
    } else {
      assert (a + b)[..|a + b| - 1] == a + b[..|b| - 1];
      RemoveAllOfConcat(faults, o, a, b[..|b| - 1]);
    }
  }

  /** The last character of a string is that of any non-empty suffix. */
  lemma EndsWithLast(s: string, suffix: string)
    requires EndsWith(s, suffix) && |suffix| > 0
    ensures s[|s| - 1] == suffix[|suffix| - 1]
  {
    assert s[|s| - 1] == s[|s| - |suffix|..][|suffix| - 1];
  }

  /** No mirror list and no up2date file share a path: the former end in `t`, the latter in `e`. */
  lemma PathsDisjoint(targetUserspace: Path)
    ensures var m, u := MirrorlistPaths(targetUserspace), Up2datePaths(targetUserspace);
      m[0] != u[0] && m[0] != u[1] && m[1] != u[0] && m[1] != u[1]
  {
    var m, u := MirrorlistPaths(targetUserspace), Up2datePaths(targetUserspace);
    EndsWithLast(m[1], "etc/mirrorlist");
    EndsWithLast(u[1], "etc/sysconfig/rhn/up2date");
    assert m[0][|m[0]| - 1] == m[1][|m[1]| - 1] == 't';
    assert u[0][|u[0]| - 1] == u[1][|u[1]| - 1] == 'e';
  }

  /** Only a mirror-list path whose removal raises ValueError ends `process` early. */
  predicate NoEscape(faults: map<Access, IoError>, targetUserspace: Path) {
    forall p | p in MirrorlistPaths(targetUserspace) :: Remove(p) in faults ==> faults[Remove(p)] != ValueError
  }

  /** `o2` is `o1` with zero or more info records appended to the log. */
  ghost predicate LogsOnlyInfo(o1: Outcome, o2: Outcome) {
    |o1.log| <= |o2.log| && o2.log[..|o1.log|] == o1.log &&
    forall k | |o1.log| <= k < |o2.log| :: o2.log[k].Info?
  }

  /** What one removal does at path `q`, and to the exception and the log. */
  lemma RemoveStepAt(faults: map<Access, IoError>, o: Outcome, p: Path, q: Path)
    ensures var r := RemoveStep(faults, o, p);
      && (q != p ==> (q in r.files <==> q in o.files) && (q in o.files ==> r.files[q] == o.files[q]))
      && (q == p && o.raised == None && Remove(p) !in faults ==> q !in r.files)
      && (q == p && o.raised == None && (Remove(p) in faults || p !in o.files) &&
            (Remove(p) in faults ==> faults[Remove(p)] != ValueError)
          ==> r.log == o.log + [Info(RemoveFailedMessage(p))])
      && (o.raised == None && (Remove(p) in faults ==> faults[Remove(p)] != ValueError) ==> r.raised == None)
      && (r.raised == None || r.raised == Some(ValueError) || r.raised == o.raised)
      && LogsOnlyInfo(o, r)
  {
  }

  /**
   * What one rewrite does at path `q`: it creates no file, leaves other paths
   * alone, and changes `p` only when reading and writing it both work.
   */
  lemma RewriteStepAt(faults: map<Access, IoError>, o: Outcome, p: Path, q: Path)
    ensures var r := RewriteStep(faults, o, p);
      && (q in r.files <==> q in o.files)
      && (q != p && q in o.files ==> r.files[q] == o.files[q])
      && (q == p && o.raised == None && Read(p) !in faults && Write(p) !in faults && p in o.files ==>
            r.files[q] == DropMirrorlist(o.files[q]))
      && (q == p && (Read(p) in faults || Write(p) in faults) && q in o.files ==> r.files[q] == o.files[q])
      && (q == p && o.raised == None && (Read(p) in faults || Write(p) in faults || p !in o.files) ==>
            r.log == o.log + [Info(UpdateFailedMessage(p))])
      && r.raised == o.raised
  {
  }

  /** A rewrite at most appends info records to the log. */
  lemma RewriteStepLogs(faults: map<Access, IoError>, o: Outcome, p: Path)
    ensures LogsOnlyInfo(o, RewriteStep(faults, o, p))
  {
  }

  /**
   * An up2date file that exists and can be read and written ends up holding
   * its old lines minus those that mention the mirror list, whatever happens
   * to the other up2date file (even when both paths are the same).
   */
  lemma Up2dateFiltered(faults: map<Access, IoError>, files: Files, log: seq<LogRecord>, targetUserspace: Path, p: Path)
    requires NoEscape(faults, targetUserspace)
    requires p in Up2datePaths(targetUserspace) && p in files
    requires Read(p) !in faults && Write(p) !in faults
    ensures var r := ProcessOutcome(faults, files, log, targetUserspace);
      p in r.files && r.files[p] == DropMirrorlist(files[p])
  {
    var m, u := MirrorlistPaths(targetUserspace), Up2datePaths(targetUserspace);
    PathsDisjoint(targetUserspace);
    var o0 := Outcome(files, log, None);
    var o1 := RemoveStep(faults, o0, m[0]);
    RemoveStepAt(faults, o0, m[0], p);
    var o2 := RemoveStep(faults, o1, m[1]);
    RemoveStepAt(faults, o1, m[1], p);
    assert o2.raised == None && p in o2.files && o2.files[p] == files[p];
    var o3 := RewriteStep(faults, o2, u[0]);
    RewriteStepAt(faults, o2, u[0], p);
    var o4 := RewriteStep(faults, o3, u[1]);
    RewriteStepAt(faults, o3, u[1], p);
    if p == u[0] {
      assert o3.files[p] == DropMirrorlist(files[p]);
      if p == u[1] {
        DropMirrorlistIdempotent(files[p]);
      }
    } else {
      assert o3.files[p] == files[p];
    }
  }

  /** An up2date file that is missing, unreadable or unwritable is left exactly as it was. */
  lemma Up2dateUntouchedOnFailure(faults: map<Access, IoError>, files: Files, log: seq<LogRecord>, targetUserspace: Path, p: Path)
    requires p in Up2datePaths(targetUserspace)
    requires Read(p) in faults || Write(p) in faults || p !in files
    ensures var r := ProcessOutcome(faults, files, log, targetUserspace);
      && (p in r.files <==> p in files) && (p in files ==> r.files[p] == files[p])
      && (NoEscape(faults, targetUserspace) ==> |log| <= |r.log| && Info(UpdateFailedMessage(p)) in r.log[|log|..])
  {
    var m, u := MirrorlistPaths(targetUserspace), Up2datePaths(targetUserspace);
    PathsDisjoint(targetUserspace);
    var o0 := Outcome(files, log, None);
    var o1 := RemoveStep(faults, o0, m[0]);
    var o2 := RemoveStep(faults, o1, m[1]);
    var o3 := RewriteStep(faults, o2, u[0]);
    RemoveStepAt(faults, o0, m[0], p);
    RemoveStepAt(faults, o1, m[1], p);
    RewriteStepAt(faults, o2, u[0], p);
    RewriteStepAt(faults, o3, u[1], p);
    var o4 := RewriteStep(faults, o3, u[1]);
    RewriteStepLogs(faults, o3, u[1]);
    LogsOnlyInfoTransitive(o0, o1, o2);
    if NoEscape(faults, targetUserspace) {
      var record := Info(UpdateFailedMessage(p));
      var k := if p == u[0] then |o2.log| else |o3.log|;
      assert o4.log[k] == record;
      assert o4.log[|log|..][k - |log|] == record;
    }
  }

  /**
   * Both mirror lists are tried: one whose removal raises nothing is absent
   * afterwards; for `/etc/mirrorlist` that holds even when removing the other
   * one raises ValueError.
   */
  lemma MirrorlistsRemoved(faults: map<Access, IoError>, files: Files, log: seq<LogRecord>, targetUserspace: Path, p: Path)
    requires p == MirrorlistPaths(targetUserspace)[0] || NoEscape(faults, targetUserspace)
    requires p in MirrorlistPaths(targetUserspace) && Remove(p) !in faults
    ensures p !in ProcessOutcome(faults, files, log, targetUserspace).files
  {
    var m, u := MirrorlistPaths(targetUserspace), Up2datePaths(targetUserspace);
    PathsDisjoint(targetUserspace);
    var o0 := Outcome(files, log, None);
    var o1 := RemoveStep(faults, o0, m[0]);
    var o2 := RemoveStep(faults, o1, m[1]);
    var o3 := RewriteStep(faults, o2, u[0]);
    RemoveStepAt(faults, o0, m[0], p);
    RemoveStepAt(faults, o1, m[1], p);
    RewriteStepAt(faults, o2, u[0], p);
    RewriteStepAt(faults, o3, u[1], p);
  }

  /**
   * Removing a mirror list that does not exist is only logged, at info level;
   * for `/etc/mirrorlist` that holds even when removing the other one raises
   * ValueError.
   */
  lemma MirrorlistMissingLogged(faults: map<Access, IoError>, files: Files, log: seq<LogRecord>, targetUserspace: Path, p: Path)
    requires (p == MirrorlistPaths(targetUserspace)[0] && (Remove(p) in faults ==> faults[Remove(p)] != ValueError))
      || NoEscape(faults, targetUserspace)
    requires p in MirrorlistPaths(targetUserspace) && p !in files
    ensures var r := ProcessOutcome(faults, files, log, targetUserspace);
      |log| <= |r.log| && Info(RemoveFailedMessage(p)) in r.log[|log|..]
  {
    var m, u := MirrorlistPaths(targetUserspace), Up2datePaths(targetUserspace);
    var record := Info(RemoveFailedMessage(p));
    var o0 := Outcome(files, log, None);
    var o1 := RemoveStep(faults, o0, m[0]);
    RemoveStepAt(faults, o0, m[0], p);
    var o2 := RemoveStep(faults, o1, m[1]);
    RemoveStepAt(faults, o1, m[1], p);
    var o3 := RewriteStep(faults, o2, u[0]);
    RewriteStepLogs(faults, o2, u[0]);
    var o4 := RewriteStep(faults, o3, u[1]);
    RewriteStepLogs(faults, o3, u[1]);
    LogsOnlyInfoTransitive(o2, o3, o4);
    var k: int;
    if p == m[0] {
      assert o1.log == log + [record];
      LogsOnlyInfoTransitive(o1, o2, o4);
      k := |log|;
      assert o4.log[..|o1.log|] == o1.log;
    } else {
      assert p == m[1] && p !in o1.files && o1.raised == None;
      assert o2.log == o1.log + [record];
      LogsOnlyInfoTransitive(o0, o1, o2);
      k := |o1.log|;
      assert o4.log[..|o2.log|] == o2.log;
    }
    assert o4.log[k] == record;
    assert o4.log[|log|..][k - |log|] == record;
  }

  /**
   * Unless a removal raises ValueError, `process` lets nothing escape and
   * only appends info records; files it does not name are untouched.
   */
  lemma ProcessContained(faults: map<Access, IoError>, files: Files, log: seq<LogRecord>, targetUserspace: Path)
    ensures var r := ProcessOutcome(faults, files, log, targetUserspace);
      && (NoEscape(faults, targetUserspace) ==> r.raised == None)
      && (r.raised == None || r.raised == Some(ValueError))
      && LogsOnlyInfo(Outcome(files, log, None), r)
      && forall q | q !in MirrorlistPaths(targetUserspace) && q !in Up2datePaths(targetUserspace) ::
           (q in r.files <==> q in files) && (q in files ==> r.files[q] == files[q])
  {
    var m, u := MirrorlistPaths(targetUserspace), Up2datePaths(targetUserspace);
    var o0 := Outcome(files, log, None);
    var o1 := RemoveStep(faults, o0, m[0]);
    var o2 := RemoveStep(faults, o1, m[1]);
    var o3 := RewriteStep(faults, o2, u[0]);
    var o4 := RewriteStep(faults, o3, u[1]);
    RemoveStepAt(faults, o0, m[0], m[0]);
    RemoveStepAt(faults, o1, m[1], m[1]);
    RewriteStepAt(faults, o2, u[0], u[0]);
    RewriteStepAt(faults, o3, u[1], u[1]);
    RewriteStepLogs(faults, o2, u[0]);
    RewriteStepLogs(faults, o3, u[1]);
    LogsOnlyInfoTransitive(o0, o1, o2);
    LogsOnlyInfoTransitive(o0, o2, o3);
    LogsOnlyInfoTransitive(o0, o3, o4);
    forall q | q !in m && q !in u
      ensures (q in o4.files <==> q in files) && (q in files ==> o4.files[q] == files[q])
    {
      RemoveStepAt(faults, o0, m[0], q);
      RemoveStepAt(faults, o1, m[1], q);
      RewriteStepAt(faults, o2, u[0], q);
      RewriteStepAt(faults, o3, u[1], q);
    }
  }

  /** Appending info records twice appends info records. */
  lemma LogsOnlyInfoTransitive(o1: Outcome, o2: Outcome, o3: Outcome)
    requires LogsOnlyInfo(o1, o2) && LogsOnlyInfo(o2, o3)
    ensures LogsOnlyInfo(o1, o3)
  {
    assert o3.log[..|o1.log|] == o3.log[..|o2.log|][..|o1.log|];
  }

  /** A ValueError from removing the first mirror list ends `process` before it changes anything. */
  lemma ProcessAbortsOnValueError(faults: map<Access, IoError>, files: Files, log: seq<LogRecord>, targetUserspace: Path)
    requires Remove("/etc/mirrorlist") in faults && faults[Remove("/etc/mirrorlist")] == ValueError
    ensures ProcessOutcome(faults, files, log, targetUserspace) == Outcome(files, log, Some(ValueError))
  {
  }

  /**
   * A ValueError can only come from the path joined onto the target
   * userspace: it escapes after the first mirror list was tried, and neither
   * up2date file is touched.
   */
  lemma ProcessAbortsOnSecondRemoval(faults: map<Access, IoError>, files: Files, log: seq<LogRecord>, targetUserspace: Path)
    requires var m := MirrorlistPaths(targetUserspace);
      && Remove(m[1]) in faults && faults[Remove(m[1])] == ValueError
      && (Remove(m[0]) in faults ==> faults[Remove(m[0])] != ValueError)
    ensures var r := ProcessOutcome(faults, files, log, targetUserspace);
      && r.raised == Some(ValueError)
      && (Remove(MirrorlistPaths(targetUserspace)[0]) !in faults ==> MirrorlistPaths(targetUserspace)[0] !in r.files)
      && forall q | q in Up2datePaths(targetUserspace) :: (q in r.files <==> q in files) && (q in files ==> r.files[q] == files[q])
  {
    var m, u := MirrorlistPaths(targetUserspace), Up2datePaths(targetUserspace);
    var o0 := Outcome(files, log, None);
    var o1 := RemoveStep(faults, o0, m[0]);
    var o2 := RemoveStep(faults, o1, m[1]);
    assert o2.raised == Some(ValueError) by {
      RemoveStepAt(faults, o0, m[0], m[0]);
    }
    if Remove(m[0]) !in faults {
      RemoveStepAt(faults, o1, m[1], m[0]);
    }
    assert RewriteStep(faults, RewriteStep(faults, o2, u[0]), u[1]) == o2;
    forall q | q in u
      ensures (q in o2.files <==> q in files) && (q in files ==> o2.files[q] == files[q])
    {
      PathsDisjoint(targetUserspace);
      RemoveStepAt(faults, o0, m[0], q);
      RemoveStepAt(faults, o1, m[1], q);
    }
  }
}
