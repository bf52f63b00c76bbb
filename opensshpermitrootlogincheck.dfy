/**
 * Whether an upgrade changes what `PermitRootLogin` means for a given
 * sshd configuration, and the edit the actor applies to pin the old default.
 *
 * OpenSSH uses the first value it obtains for an option. Directives outside
 * any `Match` block, and those inside a `Match all` block, are "global"; the
 * first of them decides the server-wide value. The new release changes the
 * compiled-in default, so a configuration without a global directive changes
 * behaviour, unless some non-`all` Match block still enables root login.
 */
module OpensshPermitRootLoginCheck {
  import opened Wrappers
  import opened Text
  import opened FileSystem

  /**
   * One `PermitRootLogin` directive as the configuration parser reports it:
   * its argument, and the tokens of the enclosing `Match` line, if any.
   */
  datatype Directive = Directive(value: string, inMatch: Option<seq<string>>)

  /** A Match condition, when present, has a first token. */
  predicate WellFormed(d: Directive) {
    d.inMatch.Some? ==> |d.inMatch.value| > 0
  }

  predicate AllWellFormed(config: seq<Directive>) {
    forall i | 0 <= i < |config| :: WellFormed(config[i])
  }

  /** `t` is "all" in some mix of upper and lower case. */
  predicate IsAllSpelling(t: string) {
    |t| == 3 && t[0] in "aA" && t[1] in "lL" && t[2] in "lL"
  }

  /** Outside any Match block, or in a block whose first token is `all` in any case. */
  predicate IsGlobal(d: Directive)
    requires WellFormed(d)
    ensures IsGlobal(d) <==> d.inMatch.None? || IsAllSpelling(d.inMatch.value[0])
  {
    if d.inMatch.None? then true
    else
      LowerIsAll(d.inMatch.value[0]);
      Lower(d.inMatch.value[0]) == "all"
  }

  /** Root login set to `yes` inside a Match block that is not `Match all`. */
  predicate EnabledInMatch(d: Directive)
    requires WellFormed(d)
  {
    d.value == "yes" && !IsGlobal(d)
  }

  ghost predicate HasGlobal(config: seq<Directive>)
    requires AllWellFormed(config)
  {
    exists i | 0 <= i < |config| :: IsGlobal(config[i])
  }

  /** Index `i` holds the first global directive. */
  ghost predicate IsFirstGlobal(config: seq<Directive>, i: int)
    requires AllWellFormed(config)
  {
    0 <= i < |config| && IsGlobal(config[i]) &&
    forall j | 0 <= j < i :: !IsGlobal(config[j])
  }

  ghost predicate HasEnabledInMatch(config: seq<Directive>)
    requires AllWellFormed(config)
  {
    exists i | 0 <= i < |config| :: EnabledInMatch(config[i])
  }

  /**
   * `global_value`: the value of the first global directive, or `default`
   * when there is none.
   */
  function GlobalValue(config: seq<Directive>, default: Option<string>): (r: Option<string>)
    requires AllWellFormed(config)
    ensures !HasGlobal(config) ==> r == default
    ensures forall i | IsFirstGlobal(config, i) :: r == Some(config[i].value)
  {
    if |config| == 0 then
      default
    else if IsGlobal(config[0]) then
      Some(config[0].value)
    else
      var r := GlobalValue(config[1..], default);
      assert forall i | IsFirstGlobal(config, i) :: IsFirstGlobal(config[1..], i - 1) by {
        forall i | IsFirstGlobal(config, i) ensures IsFirstGlobal(config[1..], i - 1) {
          assert i != 0;
          forall j | 0 <= j < i - 1 ensures !IsGlobal(config[1..][j]) {
            assert config[1..][j] == config[j + 1];
          }
        }
      }
      assert HasGlobal(config[1..]) ==> HasGlobal(config) by {
        if HasGlobal(config[1..]) {
          var k :| 0 <= k < |config[1..]| && IsGlobal(config[1..][k]);
          assert config[1..][k] == config[k + 1];
        }
      }
      r
  }

  /** Some directive is global, so a first one exists. */
  lemma {:induction false} FirstGlobalExists(config: seq<Directive>)
    requires AllWellFormed(config)
    requires HasGlobal(config)
    ensures exists i :: IsFirstGlobal(config, i)
  {
    if IsGlobal(config[0]) {
      assert IsFirstGlobal(config, 0);
    } else {
      var k :| 0 <= k < |config| && IsGlobal(config[k]);
      assert IsGlobal(config[1..][k - 1]);
      FirstGlobalExists(config[1..]);
      var i :| IsFirstGlobal(config[1..], i);
      assert IsFirstGlobal(config, i + 1) by {
        forall j | 0 <= j < i + 1 ensures !IsGlobal(config[j]) {
          if j > 0 {
            assert config[j] == config[1..][j - 1];
          }
        }
      }
    }
  }

  /** The global value is the fallback or the value of one of the directives. */
  lemma GlobalValueOrigin(config: seq<Directive>, default: Option<string>)
    requires AllWellFormed(config)
    ensures GlobalValue(config, default) == default ||
      exists i | 0 <= i < |config| :: GlobalValue(config, default) == Some(config[i].value)
    ensures HasGlobal(config) ==> GlobalValue(config, default).Some?
  {
    if HasGlobal(config) {
      FirstGlobalExists(config);
    }
  }

  /**
   * First match wins: once a prefix holds a global directive, what follows
   * cannot change the result; a prefix without one does not contribute.
   */
  lemma {:induction false} GlobalValueOfConcat(a: seq<Directive>, b: seq<Directive>, default: Option<string>)
    requires AllWellFormed(a) && AllWellFormed(b)
    ensures AllWellFormed(a + b)
    ensures HasGlobal(a) ==> GlobalValue(a + b, default) == GlobalValue(a, default)
    ensures !HasGlobal(a) ==> GlobalValue(a + b, default) == GlobalValue(b, default)
  {
    ConcatWellFormed(a, b);
    if |a| == 0 {
      assert a + b == b;
    } else {
      assert (a + b)[0] == a[0];
      assert (a + b)[1..] == a[1..] + b;
      TailWellFormed(a);
      GlobalValueOfConcat(a[1..], b, default);
      if IsGlobal(a[0]) {
        assert HasGlobal(a);
      } else {
        HasGlobalOfTail(a);
      }
    }
  }

  /** Joining two well-formed lists gives a well-formed list. */
  lemma ConcatWellFormed(a: seq<Directive>, b: seq<Directive>)
    requires AllWellFormed(a) && AllWellFormed(b)
    ensures AllWellFormed(a + b)
  {
    forall i | 0 <= i < |a + b| ensures WellFormed((a + b)[i]) {
      if i < |a| {
        assert (a + b)[i] == a[i];
      } else {
        assert (a + b)[i] == b[i - |a|];
      }
    }
  }

  /** Dropping the first directive keeps a list well formed. */
  lemma TailWellFormed(a: seq<Directive>)
    requires |a| > 0 && AllWellFormed(a)
    ensures AllWellFormed(a[1..])
  {
    forall i | 0 <= i < |a[1..]| ensures WellFormed(a[1..][i]) {
      assert a[1..][i] == a[i + 1];
    }
  }

  /** When the first directive is not global, a list has a global directive iff its tail does. */
  lemma HasGlobalOfTail(a: seq<Directive>)
    requires |a| > 0 && AllWellFormed(a) && !IsGlobal(a[0])
    ensures AllWellFormed(a[1..])
    ensures HasGlobal(a) <==> HasGlobal(a[1..])
  {
    TailWellFormed(a);
    if HasGlobal(a) {
      var k :| 0 <= k < |a| && IsGlobal(a[k]);
      assert a[1..][k - 1] == a[k];
    }
    if HasGlobal(a[1..]) {
      var k :| 0 <= k < |a[1..]| && IsGlobal(a[1..][k]);
      assert a[1..][k] == a[k + 1];
    }
  }

  /**
   * `semantics_changes`: whether the upgrade silently changes what the
   * configuration does. It does unless a global directive pins the value or
   * a non-`all` Match block still enables root login; a configuration
   * without the option at all always changes.
   */
  method SemanticsChanges(config: seq<Directive>) returns (changes: bool)
    requires AllWellFormed(config)
    ensures |config| == 0 ==> changes
    ensures HasGlobal(config) ==> !changes
    ensures HasEnabledInMatch(config) ==> !changes
    ensures changes <==> !HasGlobal(config) && !HasEnabledInMatch(config)
    ensures changes <==> forall i | 0 <= i < |config| :: !IsGlobal(config[i]) && config[i].value != "yes"
  {
    var configGlobalValue := GlobalValue(config, None);
    GlobalValueOrigin(config, None);
    var inMatchEnabled := false;
    if |config| == 0 {
      return true;
    }
    for k := 0 to |config|
      invariant inMatchEnabled <==> exists j | 0 <= j < k :: EnabledInMatch(config[j])
    {
      var opt := config[k];
      if opt.value == "yes" && opt.inMatch.Some? && Lower(opt.inMatch.value[0]) != "all" {
        inMatchEnabled := true;
      }
    }
    changes := configGlobalValue == None && !inMatchEnabled;
  }

  /** The configuration file and the copy of it kept before the edit. */
  const Config: Path := "/etc/ssh/sshd_config"
  const ConfigBackup: Path := "/etc/ssh/sshd_config.leapp_backup"

  /**
   * The lines put on top of the configuration. The last element joins
   * `PermitRootLogin yes` and the empty line after it into one string.
   */
  const PermitAutoconf: seq<Line> := [
    "# Automatically added by Leapp to preserve RHEL7 default\n",
    "# behavior after migration.\n",
    "# Placed on top of the file to avoid being included into Match blocks.\n",
    "PermitRootLogin yes\n\n"
  ]

  /** What the `except IOError` clause does with an exception raised by an access. */
  function HandleIoError(files: Files, log: seq<LogRecord>, e: IoError): (r: Outcome)
    ensures r.files == files
    ensures r.raised == None <==> e != ValueError
    ensures r.raised != None ==> r.raised == Some(e)
    ensures e != OsError ==> r.log == log
    ensures e == OsError ==> |r.log| == |log| + 1 && r.log[..|log|] == log && r.log[|log|].Error?
  {
    match e
    case NotFound => Outcome(files, log, None)
    case OsError => Outcome(files, log + [Error("Failed to open sshd_config: ", e)], None)
    case ValueError => Outcome(files, log, Some(e))
  }

  /**
   * `add_permitrootlogin_conf` as a function of the machine before it runs:
   * read the configuration, write the header followed by it back, then write
   * the original lines to the backup; the first access that fails ends it.
   */
  function AddPermitRootLoginConfOutcome(faults: map<Access, IoError>, files: Files, log: seq<LogRecord>): (r: Outcome)
    ensures r.raised == None || r.raised == Some(ValueError)
    ensures r.log == log || (|r.log| == |log| + 1 && r.log[..|log|] == log && r.log[|log|].Error?)
    ensures r.files.Keys <= files.Keys + {ConfigBackup}
  {
    match ReadOf(files, faults, Config)
    case Failure(e) => HandleIoError(files, log, e)
    case Success(original) =>
      match WriteOf(files, faults, Config, PermitAutoconf + original)
      case Failure(e) => HandleIoError(files, log, e)
      case Success(patched) =>
        match WriteOf(patched, faults, ConfigBackup, original)
        case Failure(e) => HandleIoError(patched, log, e)
        case Success(done) => Outcome(done, log, None)
  }

  /** `add_permitrootlogin_conf`, run on machine `m`. */
  method AddPermitRootLoginConf(m: Machine) returns (raised: Option<IoError>)
    modifies m
    ensures Outcome(m.files, m.log, raised) == AddPermitRootLoginConfOutcome(m.faults, old(m.files), old(m.log))
  {
    var read := m.ReadLines(Config);
    if read.Failure? {
      raised := ExceptIoError(m, read.error);
      return;
    }
    var sshdConfig := read.value;
    var permitAutoconf := PermitAutoconf;
    permitAutoconf := permitAutoconf + sshdConfig;
    var err := m.WriteLines(Config, permitAutoconf);
    if err.Some? {
      raised := ExceptIoError(m, err.value);
      return;
    }
    err := m.WriteLines(ConfigBackup, sshdConfig);
    if err.Some? {
      raised := ExceptIoError(m, err.value);
      return;
    }
    raised := None;
  }

  /** The `except IOError` clause: ENOENT is ignored, other I/O errors are logged, a ValueError escapes. */
  method ExceptIoError(m: Machine, e: IoError) returns (raised: Option<IoError>)
    modifies m`log
    ensures Outcome(m.files, m.log, raised) == HandleIoError(m.files, old(m.log), e)
  {
    raised := None;
    match e
    case NotFound =>
    case OsError =>
      m.Append(Error("Failed to open sshd_config: ", e));
    case ValueError =>
      raised := Some(e);
  }

  /**
   * When the configuration can be read and both writes go through, the
   * configuration becomes the header followed by its old lines, the backup
   * holds the old lines, nothing else changes and nothing is logged.
   */
  lemma AddPermitRootLoginConfSucceeds(faults: map<Access, IoError>, files: Files, log: seq<LogRecord>)
    requires Config in files
    requires Read(Config) !in faults && Write(Config) !in faults && Write(ConfigBackup) !in faults
    ensures var o := AddPermitRootLoginConfOutcome(faults, files, log);
      && o.files[Config][..4] == PermitAutoconf
      && o.files[Config][4..] == files[Config]
      && o.files[ConfigBackup] == files[Config]
      && o.files.Keys == files.Keys + {ConfigBackup}
      && (forall p | p in files && p != Config && p != ConfigBackup :: o.files[p] == files[p])
      && o.log == log && o.raised == None
  {
  }

  /** A missing configuration is no error: nothing is written and nothing is logged. */
  lemma AddPermitRootLoginConfMissing(faults: map<Access, IoError>, files: Files, log: seq<LogRecord>)
    requires Config !in files && Read(Config) !in faults
    ensures AddPermitRootLoginConfOutcome(faults, files, log) == Outcome(files, log, None)
  {
  }

  /**
   * No OSError/IOError escapes and at most one error record is added. Only
   * files the edit targets change, and the backup is written only after the
   * configuration was patched.
   */
  lemma AddPermitRootLoginConfContained(faults: map<Access, IoError>, files: Files, log: seq<LogRecord>)
    ensures var o := AddPermitRootLoginConfOutcome(faults, files, log);
      && (o.raised == None || o.raised == Some(ValueError))
      && (o.log == log || (|o.log| == |log| + 1 && o.log[..|log|] == log && o.log[|log|].Error?))
      && (forall p | p != Config && p != ConfigBackup :: (p in o.files <==> p in files) && (p in files ==> o.files[p] == files[p]))
      && (ConfigBackup in o.files && (ConfigBackup !in files || o.files[ConfigBackup] != files[ConfigBackup]) ==>
            Config in files && o.files[Config] == PermitAutoconf + files[Config] && o.files[ConfigBackup] == files[Config])
  {
  }

  /** A failed read writes nothing; the failure is handled by the `except IOError` clause. */
  lemma AddPermitRootLoginConfReadFails(faults: map<Access, IoError>, files: Files, log: seq<LogRecord>)
    requires Read(Config) in faults
    ensures AddPermitRootLoginConfOutcome(faults, files, log) == HandleIoError(files, log, faults[Read(Config)])
  {
  }

  /**
   * A failed write of the configuration leaves every file as it was, the
   * backup included; the failure is handled by the `except IOError` clause.
   */
  lemma AddPermitRootLoginConfWriteFails(faults: map<Access, IoError>, files: Files, log: seq<LogRecord>)
    requires Config in files
    requires Read(Config) !in faults && Write(Config) in faults
    ensures AddPermitRootLoginConfOutcome(faults, files, log) == HandleIoError(files, log, faults[Write(Config)])
  {
  }

  /**
   * The backup is written after the configuration: when only that write
   * fails, the configuration stays patched, the backup path keeps whatever it
   * held before, and the failure is handled by the `except IOError` clause.
   */
  lemma AddPermitRootLoginConfBackupFails(faults: map<Access, IoError>, files: Files, log: seq<LogRecord>)
    requires Config in files
    requires Read(Config) !in faults && Write(Config) !in faults && Write(ConfigBackup) in faults
    ensures AddPermitRootLoginConfOutcome(faults, files, log) ==
      HandleIoError(files[Config := PermitAutoconf + files[Config]], log, faults[Write(ConfigBackup)])
  {
  }

  /**
   * Running the edit a second time backs up the already patched file, so the
   * backup no longer holds the configuration from before the first run.
   */
  lemma AddPermitRootLoginConfTwice(files: Files, log: seq<LogRecord>)
    requires Config in files
    ensures var once := AddPermitRootLoginConfOutcome(map[], files, log);
      var twice := AddPermitRootLoginConfOutcome(map[], once.files, once.log);
      && twice.files[ConfigBackup] == PermitAutoconf + files[Config]
      && twice.files[Config] == PermitAutoconf + PermitAutoconf + files[Config]
  {
  }

  /** Written out, the four header strings are the same text as five separate lines. */
  lemma PermitAutoconfText()
    ensures PermitAutoconf[0] + PermitAutoconf[1] + PermitAutoconf[2] + PermitAutoconf[3] ==
      "# Automatically added by Leapp to preserve RHEL7 default\n" +
      "# behavior after migration.\n" +
      "# Placed on top of the file to avoid being included into Match blocks.\n" +
      "PermitRootLogin yes\n" + "\n"
  {
  }
}
