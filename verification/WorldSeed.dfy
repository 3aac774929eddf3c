/**
  * Seeding and reconciling worlds at start-up: `apps/server/src/world-seed-loader.ts` and
  * `world-seed-reconcile.ts`. What is done under one world's lock is one step; anything else may
  * happen between two steps.
  */
module WorldSeed {
  import opened Wrappers

  type Id = nat

  datatype Metadata = Metadata(
    source: Option<string>, storage: Option<string>, packageModified: bool, deleting: bool, other: string)

  datatype World = World(id: Id, createdAt: nat, content: string, metadata: Metadata)

  /** What reading a package gives once its lock is held; `WithoutRecord` also when the reading throws. */
  datatype Content = WithRecord(record: World) | WithoutRecord

  /** An entry of a worlds directory. A `Manifest` has a readable identity. */
  datatype Entry = Elsewhat | Unreadable | Manifest(id: Id, content: Content)

  /** A worlds directory; a missing one is `Listed([])`. */
  datatype Root = Unlisted | Listed(entries: seq<Entry>)

  function Count(entries: seq<Entry>, id: Id): nat
  {
    if entries == [] then 0
    else Count(entries[..|entries| - 1], id)
         + if entries[|entries| - 1].Manifest? && entries[|entries| - 1].id == id then 1 else 0
  }

  /** The identities that packages of a directory claim. */
  function Ids(entries: seq<Entry>): set<Id>
  {
    set e | e in entries && e.Manifest? :: e.id
  }

  function RootIds(root: Root): set<Id> { if root.Listed? then Ids(root.entries) else {} }

  /** Every entry could be read and no identity is claimed twice. */
  predicate Complete(entries: seq<Entry>)
  {
    Unreadable !in entries && forall e :: e in entries && e.Manifest? ==> Count(entries, e.id) == 1
  }

  predicate RootComplete(root: Root) { root.Listed? && Complete(root.entries) }

  const FILE := "file"

  /** A world that reconciliation may take for a dead seed. */
  predicate Removable(w: World)
  {
    w.metadata.source == Some(FILE) && !w.metadata.packageModified && !w.metadata.deleting
  }

  function PreserveWorldProvenance(record: World, existing: Option<World>): World
  {
    match existing
    case None => record
    case Some(was) =>
      if was.metadata.packageModified then was
      else
        record.(
          createdAt := was.createdAt,
          metadata := record.metadata.(
            source := if was.metadata.source.None? then record.metadata.source else was.metadata.source,
            storage := if was.metadata.storage.None? then record.metadata.storage else was.metadata.storage))
  }

  /**
    * A reseed makes a world removable only if it was, or if it was unedited and had no source of its own:
    * such a world takes the source of the package.
    */
  lemma ReseedKeepsUnremovable(record: World, was: World)
    requires !record.metadata.packageModified && !record.metadata.deleting && !was.metadata.deleting
    ensures Removable(PreserveWorldProvenance(record, Some(was))) <==>
            Removable(was)
            || (was.metadata.source.None? && !was.metadata.packageModified && record.metadata.source == Some(FILE))
  {
  }

  /** What a reseed takes from the package: everything but an edited world, the dates, and a source that is set. */
  lemma ReseedTakesPackage(record: World, was: World)
    ensures var now := PreserveWorldProvenance(record, Some(was));
            if was.metadata.packageModified then now == was
            else
              && now.id == record.id && now.content == record.content && now.createdAt == was.createdAt
              && now.metadata.other == record.metadata.other
              && now.metadata.packageModified == record.metadata.packageModified
              && now.metadata.deleting == record.metadata.deleting
              && now.metadata.source ==
                 (if was.metadata.source.Some? then was.metadata.source else record.metadata.source)
              && now.metadata.storage ==
                 (if was.metadata.storage.Some? then was.metadata.storage else record.metadata.storage)
    ensures PreserveWorldProvenance(record, None) == record
  {
  }

  /** Seeding the same package again changes nothing. */
  lemma ReseedTwice(record: World, existing: Option<World>)
    ensures var once := PreserveWorldProvenance(record, existing);
            PreserveWorldProvenance(record, Some(once)) == once
  {
  }

  /** What a pass did to the store. `root` counts the directories from the one with priority on. */
  datatype Change =
    | Upserted(root: nat, id: Id, before: Option<World>, after: World)
    | Removed(id: Id, was: World, hadSessions: bool)

  /** An edited world stays as it is; the creation date, and source and storage where set, survive. */
  predicate Preserves(before: World, after: World)
  {
    && after.createdAt == before.createdAt
    && (before.metadata.source.Some? ==> after.metadata.source == before.metadata.source)
    && (before.metadata.storage.Some? ==> after.metadata.storage == before.metadata.storage)
    && (before.metadata.packageModified ==> after == before)
  }

  predicate Lawful(change: Change)
  {
    match change
    case Upserted(_, _, before, after) =>
      before.Some? ==> !before.value.metadata.deleting && Preserves(before.value, after)
    case Removed(_, was, hadSessions) => Removable(was) && !hadSessions
  }

  predicate Loads(e: Entry) { e.Manifest? && e.content.WithRecord? && e.content.record.id == e.id }

  /** Every package was loaded, is of a world that is being deleted, or is overridden by an earlier root. */
  ghost predicate RootLoaded(roots: seq<Root>, i: nat, skipped: set<Id>)
    requires i < |roots|
  {
    RootComplete(roots[i])
    && forall e :: e in roots[i].entries && e.Manifest? ==>
         Loads(e) || e.id in skipped || exists h :: 0 <= h < i && e.id in RootIds(roots[h])
  }

  /** The record is that of the package, with what the old one keeps. */
  predicate Renews(content: Content, id: Id, before: Option<World>, after: World)
  {
    Loads(Manifest(id, content)) && after == PreserveWorldProvenance(content.record, before)
  }

  /** A world that nobody edited has the package's content once it is written. */
  lemma UnmodifiedTakesPackage(content: Content, id: Id, before: Option<World>, after: World)
    requires Renews(content, id, before, after)
    requires before.Some? ==> !before.value.metadata.packageModified
    ensures content.WithRecord? && after.id == id && after.content == content.record.content
    ensures after.metadata.other == content.record.metadata.other
  {
  }

  /** The change is what these directories, the first having priority, and these old records allow. */
  ghost predicate Authorized(change: Change, roots: seq<Root>, existing: set<Id>, skipped: set<Id>)
  {
    match change
    case Upserted(j, id, before, after) =>
      && j < |roots| && roots[j].Listed? && Count(roots[j].entries, id) == 1
      && (exists content :: Manifest(id, content) in roots[j].entries && Renews(content, id, before, after))
      && forall i :: 0 <= i < j ==> id !in RootIds(roots[i]) && (RootComplete(roots[i]) || id !in existing)
    case Removed(id, _, _) =>
      && (forall i :: 0 <= i < |roots| ==> RootLoaded(roots, i, skipped) && id !in RootIds(roots[i]))
      && exists i :: 0 <= i < |roots| && RootIds(roots[i]) != {}
  }

  /** Reconciliation can never take this world. */
  predicate Protected(id: Id, w: World, sessions: set<Id>)
  {
    id in sessions || w.metadata.packageModified || w.metadata.deleting
    || (w.metadata.source.Some? && w.metadata.source.value != FILE)
  }

  /** Protected worlds are still there, themselves, and still protected. */
  ghost predicate Kept(before: map<Id, World>, after: map<Id, World>, sessions: set<Id>)
  {
    forall id :: id in before && Protected(id, before[id], sessions) ==>
      && id in after && Protected(id, after[id], sessions) && Preserves(before[id], after[id])
      && (before[id].metadata.deleting ==> after[id] == before[id])
  }

  lemma KeptTransitive(a: map<Id, World>, b: map<Id, World>, c: map<Id, World>, sessions: set<Id>)
    requires Kept(a, b, sessions) && Kept(b, c, sessions)
    ensures Kept(a, c, sessions)
  {
  }

  datatype Package = Package(id: Id, content: Content)

  ghost predicate Holds(entries: seq<Entry>, p: Package) { Manifest(p.id, p.content) in entries }

  /** A world is as it was, or is still not there. */
  predicate Same(before: map<Id, World>, after: map<Id, World>, id: Id)
  {
    (id in before <==> id in after) && (id in before ==> before[id] == after[id])
  }

  /** A package has been seeded: its world is renewed, unless it is being deleted or the package does not load. */
  predicate Renewed(before: map<Id, World>, p: Package, after: map<Id, World>)
  {
    if (p.id in before && before[p.id].metadata.deleting) || !Loads(Manifest(p.id, p.content)) then
      Same(before, after, p.id)
    else
      p.id in after
      && after[p.id] == PreserveWorldProvenance(p.content.record, if p.id in before then Some(before[p.id]) else None)
  }

  /** The only package of its identity in directory `j`, with no claim on it from one with priority. */
  ghost predicate Wins(roots: seq<Root>, j: nat, p: Package)
  {
    && j < |roots| && roots[j].Listed? && Holds(roots[j].entries, p) && Count(roots[j].entries, p.id) == 1
    && forall i :: 0 <= i < j ==> p.id !in RootIds(roots[i])
  }

  /** Every directory was listed completely, and every package loads or is overridden. */
  ghost predicate AllLoaded(roots: seq<Root>)
  {
    forall i :: 0 <= i < |roots| ==> RootLoaded(roots, i, {})
  }

  /**
    * What a pass does that nothing interferes with: winning packages are seeded, those of existing worlds only
    * if all directories were loaded; then dead seeds are removed as well.
    */
  ghost predicate Done(roots: seq<Root>, before: map<Id, World>, after: map<Id, World>, sessions: set<Id>)
  {
    && (forall j: nat, p :: Wins(roots, j, p) && (AllLoaded(roots) || p.id !in before) ==> Renewed(before, p, after))
    && (AllLoaded(roots) && (exists i :: 0 <= i < |roots| && RootIds(roots[i]) != {}) ==>
          forall id :: (id in before && Removable(before[id]) && id !in sessions
                        && forall i :: 0 <= i < |roots| ==> id !in RootIds(roots[i]))
                       ==> id !in after)
  }

  lemma CountNext(entries: seq<Entry>, i: nat, id: Id)
    requires i < |entries|
    ensures Count(entries[..i + 1], id)
            == Count(entries[..i], id) + if entries[i].Manifest? && entries[i].id == id then 1 else 0
  {
    assert entries[..i + 1][..i] == entries[..i];
  }

  lemma {:induction false} CountIsMembership(entries: seq<Entry>, id: Id)
    ensures Count(entries, id) > 0 <==> id in Ids(entries)
  {
    if entries == [] {
    } else {
      var n := |entries| - 1;
      CountIsMembership(entries[..n], id);
      assert entries == entries[..n] + [entries[n]];
    }
  }
}
