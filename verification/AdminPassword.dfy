/**
 Rotating the PostgreSQL admin password: one value in two places, the database role and the
 secret file, with rollback. Every command and every write may fail before or after taking
 effect, and the machine may stop inside a write. What the tool reports is always true.
 */
module AdminPassword {
  import opened Wrappers
  import opened Strings
  import opened SecretFiles

  datatype Report =
    | Completed              // normal return
    | Refused                // lock, secret or generator not usable
    | NothingChanged         // a preliminary check failed
    | Restored               // "PostgreSQL and the secret file were restored and verified"
    | RemainOnNew            // "PostgreSQL and the secret file remain on the new value"
    | RolledBackUnverified   // "PostgreSQL was rolled back but the previous secret file could not be restored"
    | Unaligned              // "alignment could not be verified"
    | LockNotReleased        // the lock file could not be removed; masks the report of the body
    | Killed                 // stopped between two steps or inside a write

  // $(cat file), as the connection probe applies it: only trailing newlines go.
  function CatOutput(s: string): string { if s != "" && s[|s| - 1] == '\n' then CatOutput(s[..|s| - 1]) else s }

  predicate ValidPassword(s: string) { 16 <= |s| <= 1024 && forall i :: 0 <= i < |s| ==> s[i] >= ' ' }

  // read_secret on the contents, then _validate_password.
  function ReadPassword(content: Option<string>): Option<string> {
    if content.None? || |content.value| > 4096 || !ValidPassword(Strip(content.value)) then None
    else Some(Strip(content.value))
  }

  lemma CatOfLine(value: string)
    requires ValidPassword(value)
    ensures CatOutput(value + "\n") == value
  {
    assert (value + "\n")[..|value|] == value;
    assert value[|value| - 1] != '\n';
  }

  /** A file padded with a blank is read as one password and probed as another, so a rollback
      that is "restored and verified" leaves the role with a password it did not have. */
  lemma PaddedFile()
    ensures var content := " 0123456789abcdef\n";
            ReadPassword(Some(content)) == Some("0123456789abcdef") && CatOutput(content) == " 0123456789abcdef"
  {
    var line, word := " 0123456789abcdef\n", " 0123456789abcdef";
    assert line[..17] == word;
    assert StripEnd(word) == word && StripEnd(line) == word;
    assert StripStart("0123456789abcdef") == "0123456789abcdef" && word[1..] == "0123456789abcdef";
    assert CatOutput(word) == word;
  }

  // Between 16 and 1024 characters, none of them a control character of ASCII.
  predicate Acceptable(s: string) { 16 <= |s| <= 1024 && forall i :: 0 <= i < |s| ==> s[i] as int >= 32 }

  // What the tool reports when nothing stands in its way: it refuses a secret file it cannot use and
  // a new value that is none, and changes nothing if the file does not open the database.
  function Answer(content: Option<string>, role: string, newValue: string): Report {
    if content.None? || |content.value| > 4096 then Refused
    else if !Acceptable(Strip(content.value)) || !Acceptable(newValue) then Refused
    else if newValue == Strip(content.value) then Refused
    else if CatOutput(content.value) != role then NothingChanged
    else Completed
  }

  lemma {:induction false} CatKeepsOthers(s: string, i: nat)
    requires i < |s| && s[i] != '\n'
    ensures CatOutput(s) != ""
  {
    if s[|s| - 1] == '\n' { CatKeepsOthers(s[..|s| - 1], i); }
  }

  lemma {:induction false} StripOfNewlines(s: string)
    requires forall i :: 0 <= i < |s| ==> s[i] == '\n'
    ensures StripEnd(s) == ""
  {
    if s != "" { StripOfNewlines(s[..|s| - 1]); }
  }

  // A file with a password in it is not empty to the probe.
  lemma ProbedIsNotEmpty(content: string)
    requires Strip(content) != ""
    ensures CatOutput(content) != ""
  {
    if i :| 0 <= i < |content| && content[i] != '\n' {
      CatKeepsOthers(content, i);
    } else {
      StripOfNewlines(content);
    }
  }

  class Stack {
    const fs: FileSystem
    // No command fails and nobody stops the tool: at all, or once something has failed.
    const calm: bool
    const recovers: bool
    // The probe always reaches the database.
    const reachable: bool
    var role: string

    constructor (fs: FileSystem, role: string, calm: bool, recovers: bool, reachable: bool)
      ensures this.fs == fs && this.role == role
      ensures this.calm == calm && this.recovers == recovers && this.reachable == reachable
    {
      this.calm, this.recovers, this.reachable := calm, recovers, reachable;
      this.fs, this.role := fs, role;
    }

    ghost predicate Valid()
      reads this, fs
    {
      fs.Valid()
    }

    // psql \password over the local channel: success means the role has the new value.
    method SetPassword(value: string, sure: bool) returns (ok: bool)
      modifies this
      ensures role == value || (!ok && role == old(role))
      ensures sure ==> ok
    {
      ok := *;
      ok := ok || sure;
      var took: bool := *;
      if ok || took { role := value; }
    }

    // A TCP login with the file's contents: it can only succeed when they are the role's password.
    method Probe(target: Name, sure: bool) returns (ok: bool)
      ensures ok ==> fs.Content(target).Some? && CatOutput(fs.Content(target).value) == role
      ensures sure && fs.Content(target).Some? && CatOutput(fs.Content(target).value) == role != "" ==> ok
    {
      var reachable: bool := *;
      var content := fs.Content(target);
      ok := (reachable || sure) && content.Some? && CatOutput(content.value) != "" && CatOutput(content.value) == role;
    }

    // Both places hold this value.
    ghost predicate Both(target: Name, value: string)
      reads this, fs
    {
      role == value && fs.Content(target) == Some(value + "\n")
    }

    // Only this value can be in the file after a crash.
    ghost predicate Durable(target: Name, value: string)
      reads this, fs
    {
      FileSystem.OnlyAdds({}, fs.Views(target), {Some(value + "\n")})
    }

    // Neither place holds anything but the values on record.
    ghost predicate OnRecord(target: Name, roles: set<string>, contents: set<Option<string>>)
      reads this, fs
    {
      role in roles && fs.Content(target) in contents
    }

    // The rollback that follows any failure after the role may have changed.
    method RollBack(target: Name, temporary: Name, oldValue: string, newValue: string, ghost lock: Name)
      returns (report: Report)
      requires Valid() && target != temporary && lock != target && lock != temporary && fs.Content(lock).Some?
      requires ValidPassword(oldValue) && ValidPassword(newValue)
      modifies this, fs
      ensures Valid() && fs.Content(lock).Some?
      ensures report in {Restored, RemainOnNew, RolledBackUnverified, Unaligned, Killed}
      ensures report.Restored? ==> Both(target, oldValue) && Durable(target, oldValue)
      ensures report.RemainOnNew? ==> Both(target, newValue) && Durable(target, newValue)
      ensures report.RolledBackUnverified? ==> role == oldValue
      ensures OnRecord(target, {old(role), oldValue, newValue},
                       {old(fs.Content(target)), Some(oldValue + "\n"), Some(newValue + "\n")})
      ensures FileSystem.OnlyAdds(old(fs.Views(target)), fs.Views(target),
                                  {Some(oldValue + "\n"), Some(newValue + "\n")})
      ensures recovers && fs.healthy && temporary !in old(fs.dir) ==> report == Restored
      ensures reachable && fs.healthy && temporary !in old(fs.dir) ==>
                !report.RolledBackUnverified? && (report.Unaligned? ==> role != newValue)
    {
      var stopped: bool := *;
      if stopped && !recovers { return Killed; }
      var ok := SetPassword(oldValue, recovers);
      stopped := *;
      if stopped && !recovers { return Killed; }
      var outcome, cleaned;
      if !ok {
        outcome, cleaned := fs.AtomicWriteSecret(target, temporary, newValue);
        if outcome.Crashed? { return Killed; }
        if !outcome.Written? { return Unaligned; }
        CatOfLine(newValue);
        ok := Probe(target, recovers || reachable);
        return if ok then RemainOnNew else Unaligned;
      }
      outcome, cleaned := fs.AtomicWriteSecret(target, temporary, oldValue);
      if outcome.Crashed? { return Killed; }
      if !outcome.Written? { return RolledBackUnverified; }
      CatOfLine(oldValue);
      ok := Probe(target, recovers || reachable);
      return if ok then Restored else RolledBackUnverified;
    }

    // The forward steps: role, file, connection, bootstrap.
    method Forward(target: Name, temporary: Name, newValue: string, ghost lock: Name)
      returns (done: bool, killed: bool)
      requires Valid() && target != temporary && lock != target && lock != temporary && fs.Content(lock).Some?
      modifies this, fs
      ensures Valid() && fs.Content(lock).Some?
      ensures done ==> Both(target, newValue) && Durable(target, newValue)
      ensures OnRecord(target, {old(role), newValue}, {old(fs.Content(target)), Some(newValue + "\n")})
      ensures FileSystem.OnlyAdds(old(fs.Views(target)), fs.Views(target), {Some(newValue + "\n")})
      ensures fs.healthy && temporary !in old(fs.dir) ==> temporary !in fs.dir
      ensures calm && fs.healthy && temporary !in old(fs.dir) && ValidPassword(newValue) ==> done && !killed
    {
      var ok := SetPassword(newValue, calm);
      killed := *;
      killed := killed && !calm;
      if killed || !ok { return false, killed; }
      var outcome, cleaned := fs.AtomicWriteSecret(target, temporary, newValue);
      if outcome.Crashed? { return false, true; }
      if !outcome.Written? { return false, false; }
      if ValidPassword(newValue) { CatOfLine(newValue); }
      ok := Probe(target, calm);
      killed := *;
      killed := killed && !calm;
      if killed || !ok { return false, killed; }
      var bootstrapped: bool := *;
      killed := *;
      killed := killed && !calm;
      return (bootstrapped || calm) && !killed, killed;
    }

    // The body of the rotation, under the lock.
    method RotateLocked(target: Name, temporary: Name, newValue: string, ghost lock: Name) returns (report: Report)
      requires Valid() && target != temporary && lock != target && lock != temporary && fs.Content(lock).Some?
      modifies this, fs
      ensures Valid() && fs.Content(lock).Some?
      ensures Truthful(report, target, old(role), old(fs.Content(target)), newValue)
      ensures FileSystem.OnlyAdds(old(fs.Views(target)), fs.Views(target), Written(old(fs.Content(target)), newValue))
      ensures !report.LockNotReleased?
      ensures calm && fs.healthy && temporary !in old(fs.dir) ==>
                report == Answer(old(fs.Content(target)), old(role), newValue)
      ensures recovers && fs.healthy && temporary !in old(fs.dir) ==>
                !report.RemainOnNew? && !report.RolledBackUnverified? && !report.Unaligned?
      ensures fs.healthy && temporary !in old(fs.dir) && reachable ==>
                !report.RolledBackUnverified? && (report.Unaligned? ==> role != newValue)
    {
      var content := fs.Content(target);
      var readable: bool := *;
      if (!readable && !calm) || ReadPassword(content).None? || !ValidPassword(newValue) { return Refused; }
      var oldValue := ReadPassword(content).value;
      if newValue == oldValue { return Refused; }
      var reachable: bool := *;
      if !reachable && !calm { return NothingChanged; }
      ProbedIsNotEmpty(content.value);
      var ok := Probe(target, calm);
      var stopped: bool := *;
      if stopped && !calm { return Killed; }
      if !ok { return NothingChanged; }
      report := Switch(target, temporary, oldValue, newValue, lock);
    }

    // Forward, and back after a failure.
    method Switch(target: Name, temporary: Name, oldValue: string, newValue: string, ghost lock: Name)
      returns (report: Report)
      requires Valid() && target != temporary && lock != target && lock != temporary && fs.Content(lock).Some?
      requires ValidPassword(oldValue) && ValidPassword(newValue)
      modifies this, fs
      ensures Valid() && fs.Content(lock).Some?
      ensures report in {Completed, Restored, RemainOnNew, RolledBackUnverified, Unaligned, Killed}
      ensures report.Restored? ==> Both(target, oldValue) && Durable(target, oldValue)
      ensures report.Completed? || report.RemainOnNew? ==> Both(target, newValue) && Durable(target, newValue)
      ensures report.RolledBackUnverified? ==> role == oldValue
      ensures OnRecord(target, {old(role), oldValue, newValue},
                       {old(fs.Content(target)), Some(oldValue + "\n"), Some(newValue + "\n")})
      ensures FileSystem.OnlyAdds(old(fs.Views(target)), fs.Views(target),
                                  {Some(oldValue + "\n"), Some(newValue + "\n")})
      ensures fs.healthy && temporary !in old(fs.dir) && calm ==> report == Completed
      ensures fs.healthy && temporary !in old(fs.dir) && recovers ==>
                report.Completed? || report.Restored? || report.Killed?
      ensures fs.healthy && temporary !in old(fs.dir) && reachable ==>
                !report.RolledBackUnverified? && (report.Unaligned? ==> role != newValue)
    {
      var done, killed := Forward(target, temporary, newValue, lock);
      if killed { return Killed; }
      if done { return Completed; }
      report := RollBack(target, temporary, oldValue, newValue, lock);
    }

    // The contents a rotation ever writes.
    static function Written(content0: Option<string>, newValue: string): set<Option<string>> {
      {Some(newValue + "\n")}
      + (if ReadPassword(content0).Some? then {Some(ReadPassword(content0).value + "\n")} else {})
    }

    /** What each report means, against the role and file contents at the start. */
    ghost predicate Truthful(report: Report, target: Name, role0: string, content0: Option<string>, newValue: string)
      reads this, fs
    {
      var read := ReadPassword(content0);
      && (report.Completed? || report.RemainOnNew? ==> Both(target, newValue) && Durable(target, newValue))
      && (report.Refused? || report.NothingChanged? ==> role == role0 && fs.Content(target) == content0)
      && (report.Restored? ==>
            && read.Some? && Both(target, read.value) && Durable(target, read.value)
            && (role == role0 <==> CatOutput(content0.value) == Strip(content0.value)))
      && (report.RolledBackUnverified? ==> read.Some? && role == read.value)
      && (role == role0 || role == newValue || (read.Some? && role == read.value))
      && (fs.Content(target) == content0 || fs.Content(target) in Written(content0, newValue))
    }

    /** rotate_postgres_admin_password: whatever fails, with or without effect, the report is
        true, a value reported as held by both places is the only one a crash can leave, no crash
        leaves anything the rotation did not find or write, and unless the tool was killed or says
        so, the lock file is gone. Undisturbed, the report is determined by the file, the role and
        the new value; and where nothing fails after the first failure, that one is rolled back. */
    method Rotate(target: Name, temporary: Name, newValue: string, lock: Name) returns (report: Report)
      requires Valid() && target != temporary && lock != target && lock != temporary
      modifies this, fs
      ensures Valid()
      ensures Truthful(report, target, old(role), old(fs.Content(target)), newValue)
      ensures FileSystem.OnlyAdds(old(fs.Views(target)), fs.Views(target), Written(old(fs.Content(target)), newValue))
      ensures old(fs.Content(lock)).Some? ==> report.Refused? && fs.Content(lock) == old(fs.Content(lock))
      ensures old(fs.Content(lock)).None? && !report.Killed? && !report.LockNotReleased? ==> fs.Content(lock).None?
      ensures fs.healthy && temporary !in old(fs.dir) && old(fs.Content(lock)).None? ==> (
                && (calm ==> report == Answer(old(fs.Content(target)), old(role), newValue))
                && (recovers ==> report in {Refused, NothingChanged, Completed, Restored, Killed})
                && (reachable ==> !report.RolledBackUnverified? && (report.Unaligned? ==> role != newValue)))
    {
      var held := fs.Create(lock);
      if held.None? { return Refused; }
      var noted: bool, stopped: bool := *, *;
      if stopped && !calm { return Killed; }
      report := Refused;
      if noted || calm {
        report := RotateLocked(target, temporary, newValue, lock);
        if report.Killed? { return; }
      }
      var released := fs.Unlink(lock);
      if !released { report := LockNotReleased; }
    }
  }
}
