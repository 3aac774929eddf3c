/** Backups and revisions of `apps/desktop/src/settings-json.ts`, for one folder. */
module SettingsFiles {
  import opened Wrappers

  /** File names: the settings, its backups with and without a time and a number, and all others. */
  datatype Name = Settings | Plain(tag: string) | Stamped(tag: string, time: nat, suffix: nat) | Other(name: string)

  predicate IsBackup(name: Name) { name.Plain? || name.Stamped? }

  /** What a file holds: a bundle this build reads, something it cannot use, or the bundle of a later build. */
  datatype File = Bundle(revision: nat, entries: string) | Unusable(tag: string, text: string) | Later(text: string)

  type Files = map<Name, File>

  /** The stamped names with numbers below `n`. */
  function Tried(tag: string, time: nat, n: nat): (tried: set<Name>)
    ensures |tried| == n
    ensures forall name :: name in tried <==> name.Stamped? && name.tag == tag && name.time == time && name.suffix < n
  {
    if n == 0 then {} else Tried(tag, time, n - 1) + {Stamped(tag, time, n - 1)}
  }

  lemma SmallerSet<T>(a: set<T>, b: set<T>)
    requires a <= b
    ensures |a| <= |b|
  {
    var rest := b - a;
    assert b == a + rest;
  }

  class Folder {
    var files: Files
    /** The bundles that the settings have been. */
    ghost var seen: set<File>

    constructor (files: Files)
      ensures this.files == files && Valid()
    {
      this.files := files;
      seen := if Settings in files && files[Settings].Bundle? then {files[Settings]} else {};
    }

    /** The settings are the newest of the bundles they have been, no two of which share a revision. */
    ghost predicate Valid()
      reads this
    {
      && (Settings in files && files[Settings].Bundle? ==> files[Settings] in seen)
      && (Settings !in files || !files[Settings].Bundle? ==> seen == {})
      && (forall b :: b in seen ==> b.Bundle? && b.revision <= files[Settings].revision)
      && (forall b, c :: b in seen && c in seen && b.revision == c.revision ==> b == c)
    }

    /** `freeBackupPath`: the search ends in any finite folder, at a name that is not in use. */
    method FreeBackupPath(tag: string, time: nat) returns (name: Name)
      ensures name !in files && IsBackup(name) && name.tag == tag
      ensures Plain(tag) !in files ==> name == Plain(tag)
      ensures name.Stamped? ==> name.time == time && Tried(tag, time, name.suffix) <= files.Keys
    {
      name := Plain(tag);
      if name !in files { return; }
      var suffix := 0;
      name := Stamped(tag, time, 0);
      while name in files
        invariant name == Stamped(tag, time, suffix)
        invariant Tried(tag, time, suffix) <= files.Keys && suffix <= |files.Keys|
        decreases |files.Keys| - suffix
      {
        assert Tried(tag, time, suffix + 1) <= files.Keys;
        SmallerSet(Tried(tag, time, suffix + 1), files.Keys);
        suffix := suffix + 1;
        name := Stamped(tag, time, suffix);
      }
    }

    /** Every backup there was is there with its content. */
    twostate predicate BackupsKept()
      reads this
    {
      forall name :: name in old(files) && IsBackup(name) ==> name in files && files[name] == old(files)[name]
    }

    /** `archiveUnusableSettingsFile`: the file moves, with its content, to a new name. */
    method Archive(time: nat) returns (backup: Option<Name>)
      requires Valid()
      modifies this`files
      ensures Valid() && BackupsKept()
      ensures backup.Some? <==> Settings in old(files) && old(files)[Settings].Unusable?
      ensures backup.None? ==> files == old(files)
      ensures backup.Some? ==>
                backup.value !in old(files) && IsBackup(backup.value)
                && files == (old(files) - {Settings})[backup.value := old(files)[Settings]]
    {
      if Settings !in files || !files[Settings].Unusable? { return None; }
      var name := FreeBackupPath(files[Settings].tag, time);
      files := (files - {Settings})[name := files[Settings]];
      return Some(name);
    }

    /** `backupSettingsFile`: a copy of the settings under a new name; the copy fails without settings. */
    method Backup(tag: string, time: nat) returns (backup: Option<Name>)
      requires Valid()
      modifies this`files
      ensures Valid() && BackupsKept()
      ensures backup.Some? <==> Settings in old(files)
      ensures backup.None? ==> files == old(files)
      ensures backup.Some? ==>
                backup.value !in old(files) && IsBackup(backup.value)
                && files == old(files)[backup.value := old(files)[Settings]]
    {
      var name := FreeBackupPath(tag, time);
      if Settings !in files { return None; }
      files := files[name := files[Settings]];
      return Some(name);
    }

    /** The revision a writer must know: 0 without a file; a file that cannot be read has none. */
    function Revision(): Option<nat>
      reads this
    {
      if Settings !in files then Some(0)
      else match files[Settings] case Bundle(revision, _) => Some(revision) case _ => None
    }

    /**
      * `writeSettingsEntriesAtomic`. A writer that has read some bundle replaces just that bundle, or nothing:
      * no update made in between is lost.
      */
    method Write(entries: string, expected: nat) returns (ok: bool)
      requires Valid()
      modifies this
      ensures Valid() && BackupsKept() && old(seen) <= seen
      ensures ok <==> old(Revision()) == Some(expected)
      ensures Settings !in old(files) ==> (ok <==> expected == 0)
      ensures Settings in old(files) ==>
                (ok <==> old(files)[Settings].Bundle? && old(files)[Settings].revision == expected)
      ensures files == if ok then old(files)[Settings := Bundle(expected + 1, entries)] else old(files)
      ensures forall b :: b in old(seen) && b.revision == expected && ok ==> old(files)[Settings] == b
    {
      if Revision() != Some(expected) { return false; }
      files := files[Settings := Bundle(expected + 1, entries)];
      seen := seen + {Bundle(expected + 1, entries)};
      return true;
    }
  }
}
