/**
 Secret files on a disk that may lose what was not synced. A file has the contents programs
 see, which a crash preserves only once they are synced; a directory has its current entries
 and the earlier ones that a crash may bring back until the directory itself is synced. Every
 operation may fail, before or after taking effect.
 */
module SecretFiles {
  import opened Wrappers

  type Name = string
  type Inode = nat

  datatype File = File(data: string, synced: bool)

  // Written: it returned. Failed: it raised. Crashed: the machine stopped somewhere inside.
  datatype Outcome = Written | Failed | Crashed

  class FileSystem {
    // No operation fails and the machine does not stop.
    const healthy: bool
    var files: map<Inode, File>
    var dir: map<Name, Inode>
    var nextInode: Inode
    var past: seq<map<Name, Inode>>

    ghost predicate Valid()
      reads this
    {
      && (forall i :: i in files ==> i < nextInode)
      && (forall n :: n in dir ==> dir[n] in files)
      && forall k, n :: 0 <= k < |past| && n in past[k] ==> past[k][n] in files
    }

    // What one version of the directory has under a name.
    static function View(files: map<Inode, File>, d: map<Name, Inode>, name: Name): Option<File> {
      if name in d && d[name] in files then Some(files[d[name]]) else None
    }

    // What a program reads under this name.
    function Content(name: Name): Option<string>
      reads this
    {
      var v := View(files, dir, name);
      if v.Some? then Some(v.value.data) else None
    }

    static ghost function ViewsIn(files: map<Inode, File>, past: seq<map<Name, Inode>>, name: Name): set<Option<File>> {
      if past == [] then {}
      else ViewsIn(files, past[..|past| - 1], name) + {View(files, past[|past| - 1], name)}
    }

    // Every version of a name that a crash may leave.
    ghost function Views(name: Name): set<Option<File>>
      reads this
    {
      ViewsIn(files, past, name) + {View(files, dir, name)}
    }

    // Views depend only on the files the name leads to.
    static lemma {:induction false} SameViews(
      before: map<Inode, File>, after: map<Inode, File>, past: seq<map<Name, Inode>>, name: Name)
      requires forall k :: 0 <= k < |past| ==> View(before, past[k], name) == View(after, past[k], name)
      ensures ViewsIn(before, past, name) == ViewsIn(after, past, name)
    {
      if past != [] { SameViews(before, after, past[..|past| - 1], name); }
    }

    static lemma MoreViews(files: map<Inode, File>, past: seq<map<Name, Inode>>, d: map<Name, Inode>, name: Name)
      ensures ViewsIn(files, past + [d], name) == ViewsIn(files, past, name) + {View(files, d, name)}
    {
      assert (past + [d])[..|past|] == past;
    }

    // After a crash unsynced data may have turned into anything.
    static predicate Shows(v: Option<File>, content: Option<string>) {
      if v.None? then content.None? else v.value.synced ==> content == Some(v.value.data)
    }

    static ghost predicate SurvivesIn(views: set<Option<File>>, content: Option<string>) {
      exists v :: v in views && Shows(v, content)
    }

    // A crash leaves what it could leave before, or one of these.
    static ghost predicate OnlyAdds(before: set<Option<File>>, after: set<Option<File>>, extra: set<Option<string>>) {
      forall c :: SurvivesIn(after, c) ==> SurvivesIn(before, c) || c in extra
    }

    /** A crash at this moment can leave this content under the name. */
    ghost predicate CanSurvive(name: Name, content: Option<string>)
      reads this
    {
      SurvivesIn(Views(name), content)
    }

    // No other name has ever led to this file since the directory was last synced.
    ghost predicate Owned(inode: Inode, name: Name)
      reads this
    {
      && inode in files
      && (forall n :: n in dir && dir[n] == inode ==> n == name)
      && forall k, n :: 0 <= k < |past| && n in past[k] && past[k][n] == inode ==> n == name
    }

    constructor (healthy: bool)
      ensures Valid() && dir == map[] && this.healthy == healthy
    {
      this.healthy := healthy;
      files, dir, nextInode, past := map[], map[], 0, [];
    }

    // open with O_CREAT | O_EXCL.
    method Create(name: Name) returns (inode: Option<Inode>)
      requires Valid()
      modifies this
      ensures Valid()
      ensures inode.None? ==> dir == old(dir)
      ensures healthy ==> (inode.None? <==> name in old(dir))
      ensures inode.Some? ==> name !in old(dir) && Owned(inode.value, name) && dir == old(dir)[name := inode.value]
      ensures inode.Some? ==> files[inode.value] == File("", false)
      ensures forall n :: n != name || inode.None? ==> Views(n) == old(Views(n)) && Content(n) == old(Content(n))
    {
      var possible: bool := *;
      if (!possible && !healthy) || name in dir { return None; }
      var i := nextInode;
      past := past + [dir];
      files, dir, nextInode := files[i := File("", false)], dir[name := i], i + 1;
      forall n | n != name ensures Views(n) == old(Views(n)) && Content(n) == old(Content(n)) {
        MoreViews(files, old(past), old(dir), n);
        SameViews(old(files), files, old(past), n);
      }
      return Some(i);
    }

    // write and close; it may stop part way.
    method Write(inode: Inode, name: Name, text: string) returns (ok: bool)
      requires Valid() && Owned(inode, name)
      modifies this`files
      ensures Valid() && Owned(inode, name)
      ensures ok ==> files[inode].data == old(files)[inode].data + text
      ensures healthy ==> ok
      ensures forall n :: n != name ==> Views(n) == old(Views(n)) && Content(n) == old(Content(n))
    {
      ok := *;
      ok := ok || healthy;
      var partial: nat := *;
      var written := if !ok && 0 <= partial <= |text| then text[..partial] else text;
      Put(inode, name, File(files[inode].data + written, false));
    }

    // fsync of the file.
    method Sync(inode: Inode, name: Name) returns (ok: bool)
      requires Valid() && Owned(inode, name)
      modifies this`files
      ensures Valid() && Owned(inode, name)
      ensures files[inode].data == old(files)[inode].data && (ok ==> files[inode].synced) && dir == old(dir)
      ensures healthy ==> ok
      ensures forall n :: n != name ==> Views(n) == old(Views(n)) && Content(n) == old(Content(n))
    {
      ok := *;
      ok := ok || healthy;
      if ok { Put(inode, name, files[inode].(synced := true)); }
    }

    // A change to a file only its owner's name leads to shows under no other name.
    method Put(inode: Inode, name: Name, file: File)
      requires Valid() && Owned(inode, name)
      modifies this`files
      ensures Valid() && Owned(inode, name) && files == old(files)[inode := file]
      ensures forall n :: n != name ==> Views(n) == old(Views(n)) && Content(n) == old(Content(n))
    {
      files := files[inode := file];
      forall n | n != name ensures Views(n) == old(Views(n)) && Content(n) == old(Content(n)) {
        SameViews(old(files), files, past, n);
      }
    }

    // os.replace: atomic, but it may be reported as failed after it took effect.
    method Replace(from: Name, to: Name) returns (ok: bool)
      requires Valid() && from in dir && from != to
      modifies this`dir, this`past
      ensures Valid()
      ensures var moved := old(dir)[to := old(dir)[from]] - {from};
              dir == moved || (!ok && dir == old(dir))
      ensures Views(to) <= old(Views(to)) + {Some(files[old(dir)[from]])}
      ensures dir == old(dir) ==> Views(to) == old(Views(to))
      ensures healthy ==> ok
      ensures forall n :: n != from && n != to ==> Views(n) == old(Views(n)) && Content(n) == old(Content(n))
    {
      ok := *;
      ok := ok || healthy;
      var took: bool := *;
      if ok || took {
        past := past + [dir];
        dir := dir[to := dir[from]] - {from};
        forall n ensures ViewsIn(files, past, n) == old(Views(n)) { MoreViews(files, old(past), old(dir), n); }
      }
    }

    // fsync of the directory: earlier entries can no longer come back.
    method SyncDir() returns (ok: bool)
      requires Valid()
      modifies this`past
      ensures Valid()
      ensures forall n :: Views(n) <= old(Views(n)) && Content(n) == old(Content(n))
      ensures ok ==> forall n :: Views(n) == {View(files, dir, n)}
      ensures healthy ==> ok
    {
      ok := *;
      ok := ok || healthy;
      if ok { past := []; }
    }

    method Unlink(name: Name) returns (ok: bool)
      requires Valid()
      modifies this`dir, this`past
      ensures Valid()
      ensures dir == old(dir) - {name} || (!ok && dir == old(dir))
      ensures healthy ==> ok
      ensures forall n :: n != name ==> Views(n) == old(Views(n)) && Content(n) == old(Content(n))
    {
      ok := *;
      ok := ok || healthy;
      var took: bool := *;
      if ok || took {
        past := past + [dir];
        dir := dir - {name};
        forall n | n != name ensures Views(n) == old(Views(n)) && Content(n) == old(Content(n)) {
          MoreViews(files, old(past), old(dir), n);
        }
      }
    }

    // The first half of the try block: the complete, synced temporary file.
    method WriteTemporary(temporary: Name, value: string) returns (outcome: Outcome)
      requires Valid()
      modifies this
      ensures Valid()
      ensures outcome.Written? ==> temporary in dir && files[dir[temporary]] == File(value + "\n", true)
      ensures healthy && temporary !in old(dir) ==> outcome.Written?
      ensures forall n :: n != temporary ==> Views(n) == old(Views(n)) && Content(n) == old(Content(n))
    {
      var crash: bool := *;
      if crash && !healthy { return Crashed; }
      var inode := Create(temporary);
      if inode.None? { return Failed; }
      crash := *;
      if crash && !healthy { return Crashed; }
      var ok := Write(inode.value, temporary, value + "\n");
      assert "" + (value + "\n") == value + "\n";
      crash := *;
      if crash && !healthy { return Crashed; }
      if !ok { return Failed; }
      ok := Sync(inode.value, temporary);
      return if ok then Written else Failed;
    }

    // The second half: permissions, the rename and the directory sync.
    method Publish(target: Name, temporary: Name, value: string) returns (outcome: Outcome)
      requires Valid() && target != temporary
      requires temporary in dir && files[dir[temporary]] == File(value, true)
      modifies this
      ensures Valid()
      ensures Content(target) == Some(value)
              || (Content(target) == old(Content(target)) && Views(target) <= old(Views(target)))
      ensures Views(target) <= old(Views(target)) + {Some(File(value, true))}
      ensures outcome.Written? ==> Views(target) == {Some(File(value, true))} && Content(target) == Some(value)
      ensures healthy ==> outcome.Written? && temporary !in dir
      ensures forall n :: n != target && n != temporary ==> Views(n) <= old(Views(n)) && Content(n) == old(Content(n))
    {
      var crash: bool := *;
      if crash && !healthy { return Crashed; }
      var hardened: bool := *;
      if !hardened && !healthy { return Failed; }
      var ok := Replace(temporary, target);
      crash := *;
      if crash && !healthy { return Crashed; }
      if !ok { return Failed; }
      ok := SyncDir();
      crash := *;
      if crash && !healthy { return Crashed; }
      return if ok then Written else Failed;
    }

    method WriteAndReplace(target: Name, temporary: Name, value: string) returns (outcome: Outcome)
      requires Valid() && target != temporary
      modifies this
      ensures Valid()
      ensures Content(target) == Some(value + "\n")
              || (Content(target) == old(Content(target)) && Views(target) <= old(Views(target)))
      ensures Views(target) <= old(Views(target)) + {Some(File(value + "\n", true))}
      ensures outcome.Written? ==> Views(target) == {Some(File(value + "\n", true))}
      ensures outcome.Written? ==> Content(target) == Some(value + "\n")
      ensures healthy && temporary !in old(dir) ==> outcome.Written? && temporary !in dir
      ensures forall n :: n != target && n != temporary ==> Views(n) <= old(Views(n)) && Content(n) == old(Content(n))
    {
      outcome := WriteTemporary(temporary, value);
      if outcome.Written? {
        outcome := Publish(target, temporary, value + "\n");
      }
    }

    /** atomic_write_secret. Wherever it stops, the target reads, and after a crash can only
        read, what it could before or the complete new value, and the new one only if that is what
        it reads now; when it returns, the new value is all a crash can leave; and unless the
        clean-up unlink fails no temporary file remains. */
    method AtomicWriteSecret(target: Name, temporary: Name, value: string) returns (outcome: Outcome, cleaned: bool)
      requires Valid() && target != temporary
      modifies this
      ensures Valid()
      ensures Content(target) == Some(value + "\n")
              || (Content(target) == old(Content(target)) && OnlyAdds(old(Views(target)), Views(target), {}))
      ensures OnlyAdds(old(Views(target)), Views(target), {Some(value + "\n")})
      ensures outcome.Written? ==> cleaned && Content(target) == Some(value + "\n")
      ensures outcome.Written? ==> CanSurvive(target, Some(value + "\n"))
      ensures outcome.Written? ==> OnlyAdds({}, Views(target), {Some(value + "\n")})
      ensures !outcome.Crashed? && cleaned ==> temporary !in dir
      ensures healthy && temporary !in old(dir) ==> outcome.Written?
      ensures forall n :: n != target && n != temporary ==> Views(n) <= old(Views(n)) && Content(n) == old(Content(n))
    {
      cleaned := true;
      var inspected: bool := *;
      if !inspected && !healthy { return Failed, temporary !in dir; }
      outcome := WriteAndReplace(target, temporary, value);
      if outcome.Crashed? { return; }
      cleaned := Unlink(temporary);
      if !cleaned { outcome := Failed; }
      var crash: bool := *;
      if crash && !healthy { outcome := Crashed; }
    }

    // ---------- Power loss ----------

    // What is on the disk afterwards, given what became of unsynced files: other data, or nothing.
    static function Remains(files: map<Inode, File>, lost: map<Inode, Option<string>>): map<Inode, File> {
      map i | i in files && (files[i].synced || i !in lost || lost[i].Some?) ::
        File(if files[i].synced || i !in lost then files[i].data else lost[i].value, true)
    }

    static function Read(files: map<Inode, File>, d: map<Name, Inode>, name: Name): Option<string> {
      var v := View(files, d, name);
      if v.Some? then Some(v.value.data) else None
    }

    static lemma {:induction false} ViewOf(
      files: map<Inode, File>, past: seq<map<Name, Inode>>, name: Name, v: Option<File>)
      ensures v in ViewsIn(files, past, name) <==> exists k :: 0 <= k < |past| && v == View(files, past[k], name)
    {
      if past != [] {
        var n := |past| - 1;
        ViewOf(files, past[..n], name, v);
        assert forall k :: 0 <= k < n ==> past[..n][k] == past[k];
      }
    }

    static lemma RemainsShow(files: map<Inode, File>, lost: map<Inode, Option<string>>, d: map<Name, Inode>, name: Name)
      ensures Shows(View(files, d, name), Read(Remains(files, lost), d, name))
    {
      if name in d {
        var i, left := d[name], Remains(files, lost);
        assert i in left ==> i in files;
        assert i in files && files[i].synced ==> i in left && left[i].data == files[i].data;
      }
    }

    // This version of the directory, with this fate of unsynced files, leaves this content.
    ghost predicate Leaves(d: map<Name, Inode>, lost: map<Inode, Option<string>>, name: Name, content: Option<string>)
      reads this
    {
      (d == dir || d in past) && Read(Remains(files, lost), d, name) == content
    }

    lemma LeftSurvives(d: map<Name, Inode>, lost: map<Inode, Option<string>>, name: Name, content: Option<string>)
      requires Leaves(d, lost, name, content)
      ensures CanSurvive(name, content)
    {
      var v := View(files, d, name);
      ViewOf(files, past, name, v);
      RemainsShow(files, lost, d, name);
      assert v in Views(name) && Shows(v, content);
    }

    /** The contents called survivors are exactly those a power loss leaves, for some version of the
        directory and some fate of the files that were not synced. */
    lemma SurvivorsRemain(name: Name, content: Option<string>)
      ensures CanSurvive(name, content) <==> exists d, lost :: Leaves(d, lost, name, content)
    {
      forall d, lost | Leaves(d, lost, name, content) ensures CanSurvive(name, content) {
        LeftSurvives(d, lost, name, content);
      }
      if CanSurvive(name, content) {
        var v :| v in Views(name) && Shows(v, content);
        ViewOf(files, past, name, v);
        var d :| (d == dir || d in past) && v == View(files, d, name);
        var lost: map<Inode, Option<string>> := if v.Some? then map[d[name] := content] else map[];
        assert Leaves(d, lost, name, content);
      }
    }

    // The machine stops and comes back.
    method PowerLoss()
      requires Valid()
      modifies this
      ensures Valid()
      ensures forall n :: SurvivesIn(old(Views(n)), Content(n))
      ensures forall n, c :: SurvivesIn(Views(n), c) <==> c == Content(n)
    {
      var lost: map<Inode, Option<string>>, k: nat := *, *;
      var d := if k < |past| then past[k] else dir;
      var left := Remains(files, lost);
      forall n ensures SurvivesIn(Views(n), Read(left, d, n)) { LeftSurvives(d, lost, n, Read(left, d, n)); }
      files, dir, past := left, map n | n in d && d[n] in left :: d[n], [];
    }
  }
}
