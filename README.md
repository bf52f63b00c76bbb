# PermitRootLogin preservation and CLN mirror unpinning, in Dafny

This project models two actors of the leapp in-place upgrade tooling.

- **opensshpermitrootlogincheck**. It decides whether an upgrade silently changes what the
  sshd `PermitRootLogin` option means. OpenSSH takes the first value it finds for an option.
  Directives outside any `Match` block, and those in a `Match all` block, are global.
  The new release changes the compiled-in default. So a configuration without a global directive
  changes behaviour, unless a non-`all` Match block still enables root login with `yes`.
  The module also holds the edit the actor applies: `add_permitrootlogin_conf` puts a fixed header
  with `PermitRootLogin yes` on top of `/etc/ssh/sshd_config`. It then writes the old lines to
  `/etc/ssh/sshd_config.leapp_backup`.
- **unpinclnmirror**. It deletes the pinned CLN mirror list, on the host and inside the target
  userspace. It then rewrites the two up2date configurations without the lines that mention
  `etc/mirrorlist`.

Files:

- `wrappers.dfy`: `Option` and `Result`.
- `text.dfy`: ASCII `Lower` and substring search `Contains`.
- `filesystem.dfy`: the machine the actors run on.
  - Files are a map from path to lines, as `readlines()` returns them.
  - The machine has a log.
  - A fixed table of injected failures says which read, write or remove raises which exception:
    `NotFound` (ENOENT), `OsError` (any other OSError/IOError) or `ValueError`.
  - An access with no entry in that table behaves as POSIX would on the map.
  - `PathJoin` is `os.path.join` for two arguments.
- `opensshpermitrootlogincheck.dfy`:
  - `GlobalValue` is a recursive first-match scan.
  - `SemanticsChanges` is a method with the source's flag loop.
  - `AddPermitRootLoginConf` is a method on the machine. It is proved equal to the pure
    `AddPermitRootLoginConfOutcome`, and the lemmas are stated about that function.
- `unpinclnmirror.dfy`:
  - `DropMirrorlist` is the list comprehension.
  - `Process` runs the source's two loops (`RemoveMirrorlists`, `RewriteUp2dates`).
  - Each loop is proved equal to a fold over its path list (`RemoveAll`, `RewriteAll`).
  - `ProcessOutcome` applies the four steps (`RemoveStep` twice, then `RewriteStep` twice)
    explicitly. `LoopsUnfold` proves that the two folds equal it.

Behaviour of the code worth knowing:

- `in_match[0]` is indexed without a guard (opensshpermitrootlogincheck.py:14 and :44). So the model requires every Match
  token list to be non-empty.
- ENOENT while reading `sshd_config` is not logged (opensshpermitrootlogincheck.py:71).
- The configuration is written before the backup (opensshpermitrootlogincheck.py:65-68). If the backup write fails, the
  configuration stays patched and any earlier backup is kept (`AddPermitRootLoginConfBackupFails`).
- `except IOError` (opensshpermitrootlogincheck.py:70) and `except OSError` (unpinclnmirror/actor.py:32) do not catch `ValueError`.
  The model returns such an exception as `raised`. In `Process`, a `ValueError` from `os.remove`
  ends the run (`ProcessAbortsOnValueError`, `ProcessAbortsOnSecondRemoval`).
- The header is four strings, not five (opensshpermitrootlogincheck.py:57-63). A comma is missing between
  `"PermitRootLogin yes\n"` and `"\n"`, so the last string is `"PermitRootLogin yes\n\n"`.
  Written out, it is the same text (`PermitAutoconfText`).
- Running the sshd edit twice backs up the already patched file (`AddPermitRootLoginConfTwice`).
- The up2date failure message reads "Can update ... file, doing nothing" (unpinclnmirror/actor.py:47). It is kept verbatim.

## Model

| member | source | states |
|---|---|---|
| Text.Lower | repos/system_upgrade/common/actors/opensshpermitrootlogincheck/libraries/opensshpermitrootlogincheck.py:14 | `.lower()` keeps the length, keeps every character except upper-case ASCII letters, and leaves no upper-case ASCII letter |
| Text.LowerIsAll | repos/system_upgrade/common/actors/opensshpermitrootlogincheck/libraries/opensshpermitrootlogincheck.py:14 | `token.lower() == 'all'` holds exactly for the three-letter spellings of "all" in any case |
| Text.Contains | repos/system_upgrade/cloudlinux/actors/unpinclnmirror/actor.py:42 | Python's `sub in s` holds iff `sub` occurs at some index of `s` |
| FileSystem.PathJoin | repos/system_upgrade/cloudlinux/actors/unpinclnmirror/actor.py:28 | `os.path.join(a, b)` ends with `b`; it is `b` when `b` is absolute, otherwise starts with `a`, is `a + "/" + b` when `a` is non-empty and does not end in `/`, and is `a + b` when `a` is empty or ends in `/` |
| FileSystem.Machine.ReadLines | repos/system_upgrade/cloudlinux/actors/unpinclnmirror/actor.py:40-42 | reading succeeds iff no failure is injected and the file exists, and then yields its lines; a missing file raises ENOENT |
| FileSystem.Machine.WriteLines | repos/system_upgrade/cloudlinux/actors/unpinclnmirror/actor.py:44-45 | writing replaces or creates exactly that file, or fails with the injected error and changes nothing |
| FileSystem.Machine.RemoveFile | repos/system_upgrade/cloudlinux/actors/unpinclnmirror/actor.py:31 | `os.remove` deletes exactly that file, or fails (ENOENT when it is missing) and changes nothing |
| FileSystem.Machine.Append | repos/system_upgrade/cloudlinux/actors/unpinclnmirror/actor.py:33 | logging appends one record and keeps the earlier ones |
| OpensshPermitRootLoginCheck.GlobalValue | repos/system_upgrade/common/actors/opensshpermitrootlogincheck/libraries/opensshpermitrootlogincheck.py:5-16 | the result is the value of the first directive outside a Match block or in `Match all`; with no such directive it is `default` |
| OpensshPermitRootLoginCheck.IsGlobal | repos/system_upgrade/common/actors/opensshpermitrootlogincheck/libraries/opensshpermitrootlogincheck.py:14 | a directive counts as global exactly when it is outside any Match block or its Match block starts with a three-letter spelling of `all` in any case |
| OpensshPermitRootLoginCheck.FirstGlobalExists | repos/system_upgrade/common/actors/opensshpermitrootlogincheck/libraries/opensshpermitrootlogincheck.py:13-15 | when some directive is global, a first global directive exists, so the scan returns from the loop |
| OpensshPermitRootLoginCheck.GlobalValueOrigin | repos/system_upgrade/common/actors/opensshpermitrootlogincheck/libraries/opensshpermitrootlogincheck.py:13-16 | the global value is `default` or the value of some directive; with a global directive it is never the `None` fallback |
| OpensshPermitRootLoginCheck.GlobalValueOfConcat | repos/system_upgrade/common/actors/opensshpermitrootlogincheck/libraries/opensshpermitrootlogincheck.py:13-15 | first match wins: directives after a global one never change the result; a prefix without a global directive contributes nothing |
| OpensshPermitRootLoginCheck.SemanticsChanges | repos/system_upgrade/common/actors/opensshpermitrootlogincheck/libraries/opensshpermitrootlogincheck.py:19-47 | true for an empty list; false when a global or `Match all` directive exists; false when some non-`all` Match block says `yes`; true exactly when every directive is in a non-`all` Match block and none says `yes` |
| OpensshPermitRootLoginCheck.AddPermitRootLoginConf | repos/system_upgrade/common/actors/opensshpermitrootlogincheck/libraries/opensshpermitrootlogincheck.py:50-74 | the machine's files, log and escaped exception afterwards are those of `AddPermitRootLoginConfOutcome`: read, write header plus lines, write backup, and stop at the first failure |
| OpensshPermitRootLoginCheck.AddPermitRootLoginConfOutcome | repos/system_upgrade/common/actors/opensshpermitrootlogincheck/libraries/opensshpermitrootlogincheck.py:53-74 | whatever fails, no exception other than ValueError escapes, the log gains at most one error record, and no file other than the backup is created |
| OpensshPermitRootLoginCheck.HandleIoError | repos/system_upgrade/common/actors/opensshpermitrootlogincheck/libraries/opensshpermitrootlogincheck.py:70-74 | the `except IOError` clause changes no file; it swallows ENOENT and OSError and lets ValueError through; only an OSError adds a record, an error record appended after the old log |
| OpensshPermitRootLoginCheck.ExceptIoError | repos/system_upgrade/common/actors/opensshpermitrootlogincheck/libraries/opensshpermitrootlogincheck.py:70-74 | ENOENT is ignored, another I/O error adds one error record, a ValueError is not caught |
| OpensshPermitRootLoginCheck.AddPermitRootLoginConfSucceeds | repos/system_upgrade/common/actors/opensshpermitrootlogincheck/libraries/opensshpermitrootlogincheck.py:53-68 | on success the configuration is the four header lines followed by its old lines, and the backup holds the old lines; no other file changes and nothing is logged |
| OpensshPermitRootLoginCheck.AddPermitRootLoginConfMissing | repos/system_upgrade/common/actors/opensshpermitrootlogincheck/libraries/opensshpermitrootlogincheck.py:53-74 | a missing configuration writes nothing, logs nothing and raises nothing |
| OpensshPermitRootLoginCheck.AddPermitRootLoginConfContained | repos/system_upgrade/common/actors/opensshpermitrootlogincheck/libraries/opensshpermitrootlogincheck.py:53-74 | no OSError/IOError escapes; at most one error record is added; only the configuration and the backup can change; a changed backup means the configuration was patched from the lines it holds |
| OpensshPermitRootLoginCheck.AddPermitRootLoginConfReadFails | repos/system_upgrade/common/actors/opensshpermitrootlogincheck/libraries/opensshpermitrootlogincheck.py:53-74 | when reading the configuration fails, no file is written, ENOENT is ignored, another I/O error adds one error record, and a ValueError escapes |
| OpensshPermitRootLoginCheck.AddPermitRootLoginConfWriteFails | repos/system_upgrade/common/actors/opensshpermitrootlogincheck/libraries/opensshpermitrootlogincheck.py:65-74 | when writing the configuration fails, no file changes (the backup is not written), ENOENT is ignored, another I/O error adds one error record, and a ValueError escapes |
| OpensshPermitRootLoginCheck.AddPermitRootLoginConfTwice | repos/system_upgrade/common/actors/opensshpermitrootlogincheck/libraries/opensshpermitrootlogincheck.py:65-68 | a second run backs up the already patched file and adds a second header |
| OpensshPermitRootLoginCheck.AddPermitRootLoginConfBackupFails | repos/system_upgrade/common/actors/opensshpermitrootlogincheck/libraries/opensshpermitrootlogincheck.py:65-74 | when only the backup write fails, the configuration is already patched, any earlier backup is kept, and the error goes through the `except IOError` clause |
| OpensshPermitRootLoginCheck.PermitAutoconfText | repos/system_upgrade/common/actors/opensshpermitrootlogincheck/libraries/opensshpermitrootlogincheck.py:57-63 | the four header strings written out are the same text as the five lines apparently intended |
| UnpinClnMirror.DropMirrorlist | repos/system_upgrade/cloudlinux/actors/unpinclnmirror/actor.py:41-43 | no kept line contains `etc/mirrorlist`; every line that does not is kept; every kept line comes from the input; never longer than the input |
| UnpinClnMirror.DropMirrorlistIsSubsequence | repos/system_upgrade/cloudlinux/actors/unpinclnmirror/actor.py:41-43 | the kept lines are a subsequence of the input, in the same order |
| UnpinClnMirror.DropMirrorlistOfConcat | repos/system_upgrade/cloudlinux/actors/unpinclnmirror/actor.py:41-43 | the filter works line by line: on a concatenation it is the concatenation of the filtered parts |
| UnpinClnMirror.DropMirrorlistKeepsClean | repos/system_upgrade/cloudlinux/actors/unpinclnmirror/actor.py:41-43 | a file with no line mentioning `etc/mirrorlist` is left as it is |
| UnpinClnMirror.DropMirrorlistIdempotent | repos/system_upgrade/cloudlinux/actors/unpinclnmirror/actor.py:41-43 | filtering the filtered lines again changes nothing |
| UnpinClnMirror.MirrorlistPaths | repos/system_upgrade/cloudlinux/actors/unpinclnmirror/actor.py:26-29 | the first loop visits two paths: `/etc/mirrorlist`, then a path ending in `etc/mirrorlist` |
| UnpinClnMirror.Up2datePaths | repos/system_upgrade/cloudlinux/actors/unpinclnmirror/actor.py:35-38 | the second loop visits two paths: `/etc/sysconfig/rhn/up2date`, then a path ending in `etc/sysconfig/rhn/up2date` |
| UnpinClnMirror.RemoveStep | repos/system_upgrade/cloudlinux/actors/unpinclnmirror/actor.py:30-33 | one removal deletes at most its own path and creates nothing; it keeps an earlier exception, or raises a ValueError only when none was raised before; it adds at most one record |
| UnpinClnMirror.RewriteStep | repos/system_upgrade/cloudlinux/actors/unpinclnmirror/actor.py:39-47 | one rewrite creates and deletes no file, never raises, and adds at most one record |
| UnpinClnMirror.AbortedStaysAborted | repos/system_upgrade/cloudlinux/actors/unpinclnmirror/actor.py:26-47 | after an exception escaped, neither loop changes anything more |
| UnpinClnMirror.Process | repos/system_upgrade/cloudlinux/actors/unpinclnmirror/actor.py:23-47 | the machine's files, log and escaped exception afterwards are those of `ProcessOutcome`: the two removals, then the two rewrites, in order; a ValueError from a removal skips the rest |
| UnpinClnMirror.ProcessOutcome | repos/system_upgrade/cloudlinux/actors/unpinclnmirror/actor.py:23-47 | the whole of `process` creates no file, lets no exception but ValueError escape, and adds at most four records |
| UnpinClnMirror.RemoveMirrorlists | repos/system_upgrade/cloudlinux/actors/unpinclnmirror/actor.py:26-33 | the first loop leaves the machine as `RemoveAll` over the paths: each removal in order, OSError logged, a ValueError ending the run |
| UnpinClnMirror.RewriteUp2dates | repos/system_upgrade/cloudlinux/actors/unpinclnmirror/actor.py:35-47 | the second loop leaves the machine as `RewriteAll` over the paths: each file filtered in order, any failure logged, nothing raised |
| UnpinClnMirror.PathsDisjoint | repos/system_upgrade/cloudlinux/actors/unpinclnmirror/actor.py:26-38 | no mirror-list path is an up2date path, whatever the target userspace is |
| UnpinClnMirror.RemoveStepAt | repos/system_upgrade/cloudlinux/actors/unpinclnmirror/actor.py:30-33 | one removal touches only its own path; a removal that raises nothing deletes it; a missing file or another OSError adds one info record; only a ValueError escapes |
| UnpinClnMirror.RewriteStepAt | repos/system_upgrade/cloudlinux/actors/unpinclnmirror/actor.py:39-47 | one rewrite creates no file and touches only its own path; it filters that file when reading and writing both work; otherwise it leaves it and adds one info record |
| UnpinClnMirror.Up2dateFiltered | repos/system_upgrade/cloudlinux/actors/unpinclnmirror/actor.py:35-47 | an up2date file that exists and can be read and written ends up filtered, whatever happens to the other path, even when both paths are the same |
| UnpinClnMirror.Up2dateUntouchedOnFailure | repos/system_upgrade/cloudlinux/actors/unpinclnmirror/actor.py:35-47 | an up2date file that is missing, unreadable or unwritable is left as it was, and the failure is logged |
| UnpinClnMirror.MirrorlistsRemoved | repos/system_upgrade/cloudlinux/actors/unpinclnmirror/actor.py:26-33 | both mirror lists are tried; when no removal raises ValueError, one whose removal raises nothing is absent afterwards, whatever happens to the other; `/etc/mirrorlist` is absent even when the second removal raises ValueError |
| UnpinClnMirror.MirrorlistMissingLogged | repos/system_upgrade/cloudlinux/actors/unpinclnmirror/actor.py:30-33 | a mirror list that does not exist is not an error: an info record for it is logged when no removal raises ValueError; for `/etc/mirrorlist` also when the second removal raises ValueError |
| UnpinClnMirror.ProcessContained | repos/system_upgrade/cloudlinux/actors/unpinclnmirror/actor.py:23-47 | unless a removal raises ValueError nothing escapes; only info records are appended; files the actor does not name are untouched |
| UnpinClnMirror.ProcessAbortsOnValueError | repos/system_upgrade/cloudlinux/actors/unpinclnmirror/actor.py:26-33 | a ValueError from removing `/etc/mirrorlist` ends `process` before anything changes |
| UnpinClnMirror.ProcessAbortsOnSecondRemoval | repos/system_upgrade/cloudlinux/actors/unpinclnmirror/actor.py:26-33 | a ValueError from removing the second mirror list, when the first removal raised no ValueError, escapes from `process` after `/etc/mirrorlist` was removed (when its removal did not fail) and leaves both up2date files as they were |

## Left out

- OpensshPermitRootLoginCheck.GlobalValue: requires every `in_match` to be non-empty. The code
  only indexes the directives before the first global one; an empty list there raises IndexError,
  which is not modelled.
- OpensshPermitRootLoginCheck.SemanticsChanges: requires every `in_match` to be non-empty. The code
  also indexes every directive whose value is `yes`; the IndexError is not modelled.
- Text.Lower: lower-cases ASCII only, where Python's `str.lower` covers Unicode. For the comparison
  with `'all'` the two agree, because no non-ASCII character lowers to `a` or `l`.
- Parsing `sshd_config` into directives is not part of this model; the directive list is an input.
- FileSystem.Machine.WriteLines: a failed write leaves the file as it was. `open(p, 'w')` truncates
  first, so a failure inside `writelines` could leave the file partly written.
- Files are sequences of the strings written to them. Re-splitting the concatenated text into lines
  is not modelled, so the header's last string stays one element.
- The text of an exception (`str(err)`) is abstracted to its kind in the log record.
- `get_target_userspace_path()` is a foreign call and becomes the `targetUserspace` parameter.
- The actor classes, their `consumes`/`produces`/`tags`, the `run_on_cloudlinux` decorator and
  logger set-up belong to the host framework and are not modelled.
- When `add_permitrootlogin_conf` runs, and whether it depends on `semantics_changes`, is decided by
  the actor that calls it, which is not part of this model; the two are modelled independently.
- The constants `CLN_REPO_ID` and `DEFAULT_CLN_MIRROR` are declared but not used by `process`.
- `scanvendorrepofiles/actor.py` only delegates to a library that is not part of this model.
