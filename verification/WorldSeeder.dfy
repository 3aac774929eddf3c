/** The start-up pass over the worlds directories, against a store that others use too. */
module WorldSeeder {
  import opened WorldSeed
  import opened Wrappers

  lemma ListedIsCounted(entries: seq<Entry>, all: seq<Package>, id: Id)
    requires forall p :: p in all ==> Holds(entries, p)
    ensures forall k :: 0 <= k < |all| && all[k].id == id ==> Count(entries, id) >= 1
  {
    forall k | 0 <= k < |all| && all[k].id == id ensures Count(entries, id) >= 1 {
      assert Holds(entries, all[k]) && Manifest(id, all[k].content).id in Ids(entries);
      CountIsMembership(entries, id);
    }
  }

  /** The inventory loop of `loadWorldPackages`. */
  method ListPackages(entries: seq<Entry>) returns (all: seq<Package>, counts: map<Id, nat>, readable: bool)
    ensures readable == (Unreadable !in entries)
    ensures forall p :: p in all <==> Holds(entries, p)
    ensures counts.Keys == Ids(entries) && forall id :: id in counts ==> counts[id] == Count(entries, id)
    ensures forall i, j :: 0 <= i < j < |all| && all[i].id == all[j].id ==> Count(entries, all[j].id) >= 2
  {
    all, counts, readable := [], map[], true;
    for i := 0 to |entries|
      invariant readable == (Unreadable !in entries[..i])
      invariant forall p :: p in all <==> Holds(entries[..i], p)
      invariant forall id :: Count(entries[..i], id) == if id in counts then counts[id] else 0
      invariant counts.Keys == Ids(entries[..i])
      invariant forall k, l :: 0 <= k < l < |all| && all[k].id == all[l].id ==> Count(entries[..i], all[l].id) >= 2
    {
      var entry := entries[i];
      assert entries[..i + 1] == entries[..i] + [entry];
      forall id ensures Count(entries[..i + 1], id)
          == Count(entries[..i], id) + if entry.Manifest? && entry.id == id then 1 else 0 {
        CountNext(entries, i, id);
      }
      match entry
      case Elsewhat =>
      case Unreadable => readable := false;
      case Manifest(id, content) =>
        ListedIsCounted(entries[..i], all, id);
        counts := counts[id := (if id in counts then counts[id] else 0) + 1];
        all := all + [Package(id, content)];
    }
    assert entries[..|entries|] == entries;
  }

  /** `loadWorldPackages`: the packages whose identity no other package of the directory claims. */
  method LoadWorldPackages(entries: seq<Entry>) returns (packages: seq<Package>, worldIds: set<Id>, complete: bool)
    ensures worldIds == Ids(entries) && complete == Complete(entries)
    ensures forall p :: p in packages <==> Holds(entries, p) && Count(entries, p.id) == 1
    ensures forall i, j :: 0 <= i < j < |packages| ==> packages[i].id != packages[j].id
  {
    var all, counts, readable := ListPackages(entries);
    forall p | p in all ensures p.id in counts {
      assert Holds(entries, p) && Manifest(p.id, p.content).id in Ids(entries);
    }
    packages, complete := [], readable;
    for i := 0 to |all|
      invariant forall p :: p in packages <==> p in all[..i] && Count(entries, p.id) == 1
      invariant forall k, l :: 0 <= k < l < |packages| ==> packages[k].id != packages[l].id
      invariant complete <==> readable && forall p :: p in all[..i] ==> Count(entries, p.id) == 1
    {
      if counts[all[i].id] == 1 {
        forall k | 0 <= k < |packages| ensures packages[k].id != all[i].id {
          assert packages[k] in all[..i];
        }
        packages := packages + [all[i]];
      } else {
        complete := false;
      }
    }
    worldIds := counts.Keys;
    forall e | e in entries && e.Manifest? ensures Package(e.id, e.content) in all {
      assert Holds(entries, Package(e.id, e.content));
    }
    assert all[..|all|] == all;
  }

  predicate UpsertOf(change: Change, j: nat, p: Package)
  {
    && change.Upserted? && change.root == j && change.id == p.id && Lawful(change)
    && Renews(p.content, p.id, change.before, change.after)
  }

  /** The changes from number `from` on are lawful and authorized. */
  ghost predicate AllAuthorized(
      changes: seq<Change>, from: nat, roots: seq<Root>, existing: set<Id>, skipped: set<Id>)
  {
    forall k :: from <= k < |changes| ==> Lawful(changes[k]) && Authorized(changes[k], roots, existing, skipped)
  }

  /** What a claimed identity stands for when directory `j` is seeded. */
  ghost predicate Claims(claimed: set<Id>, roots: seq<Root>, j: nat, existing: set<Id>)
  {
    j <= |roots| && forall i :: 0 <= i < j ==>
      RootIds(roots[i]) <= claimed && (RootComplete(roots[i]) || existing <= claimed)
  }

  lemma AuthorizedOnward(
      first: seq<Change>, all: seq<Change>, from: nat, roots: seq<Root>, existing: set<Id>,
      less: set<Id>, more: set<Id>)
    requires from <= |first| && first <= all && less <= more
    requires AllAuthorized(first, from, roots, existing, less)
    requires AllAuthorized(all, |first|, roots, existing, more)
    ensures AllAuthorized(all, from, roots, existing, more)
  {
    forall k | from <= k < |all| ensures Lawful(all[k]) && Authorized(all[k], roots, existing, more) {
      if k < |first| {
        assert all[k] == first[k];
        if first[k].Removed? { LoadedGrows(roots, |roots|, less, more); }
      }
    }
  }

  /** All identities that these directories claim. */
  function Union(roots: seq<Root>): set<Id>
  {
    if roots == [] then {} else Union(roots[..|roots| - 1]) + RootIds(roots[|roots| - 1])
  }

  lemma {:induction false} InUnion(roots: seq<Root>, id: Id)
    ensures id in Union(roots) <==> exists i :: 0 <= i < |roots| && id in RootIds(roots[i])
  {
    if roots == [] {
    } else {
      var n := |roots| - 1;
      InUnion(roots[..n], id);
      assert forall i :: 0 <= i < n ==> roots[..n][i] == roots[i];
    }
  }

  /** A directory whose packages were loaded or claimed before, all earlier ones being complete, is loaded. */
  lemma NextLoaded(roots: seq<Root>, j: nat, skipped: set<Id>)
    requires j < |roots| && RootComplete(roots[j])
    requires forall e :: e in roots[j].entries && e.Manifest? ==>
               Loads(e) || e.id in skipped || e.id in Union(roots[..j])
    ensures RootLoaded(roots, j, skipped)
  {
    forall e | e in roots[j].entries && e.Manifest?
      ensures Loads(e) || e.id in skipped || exists h :: 0 <= h < j && e.id in RootIds(roots[h])
    {
      InUnion(roots[..j], e.id);
      if e.id in Union(roots[..j]) {
        var h :| 0 <= h < j && e.id in RootIds(roots[..j][h]);
        assert e.id in RootIds(roots[h]);
      }
    }
  }

  /** Of the first `n` directories the winning packages have been seeded, and nothing else. */
  ghost predicate RootsSeeded(
      roots: seq<Root>, n: nat, complete: bool, before: map<Id, World>, after: map<Id, World>)
  {
    && n <= |roots|
    && (forall j: nat, p :: j < n && Wins(roots, j, p) && (complete || p.id !in before) ==> Renewed(before, p, after))
    && (forall id :: id !in Union(roots[..n]) ==> Same(before, after, id))
  }

  lemma UnlistedSeedsNothing(roots: seq<Root>, j: nat, complete: bool, before: map<Id, World>, after: map<Id, World>)
    requires j < |roots| && roots[j].Unlisted? && RootsSeeded(roots, j, complete, before, after)
    ensures RootsSeeded(roots, j + 1, false, before, after)
  {
    assert roots[..j + 1] == roots[..j] + [roots[j]];
  }

  lemma LoadedIsClaimed(roots: seq<Root>, j: nat)
    requires j < |roots| && RootLoaded(roots, j, {})
    ensures forall e :: e in roots[j].entries && e.Manifest? ==> Loads(e) || e.id in Union(roots[..j])
  {
    forall e | e in roots[j].entries && e.Manifest? && !Loads(e) ensures e.id in Union(roots[..j]) {
      var h :| 0 <= h < j && e.id in RootIds(roots[h]);
      assert roots[..j][h] == roots[h];
      InUnion(roots[..j], e.id);
    }
  }

  lemma RootsSeededMore(roots: seq<Root>, j: nat, claimed: set<Id>, complete: bool, before: map<Id, World>,
                        now: map<Id, World>, after: map<Id, World>)
    requires j < |roots| && roots[j].Listed? && RootsSeeded(roots, j, complete, before, now)
    requires Union(roots[..j]) <= claimed <= Union(roots[..j]) + before.Keys
    requires complete ==> claimed == Union(roots[..j])
    requires SeededFrom(roots[j].entries, claimed, now, after)
    ensures RootsSeeded(roots, j + 1, complete, before, after)
  {
    assert roots[..j + 1] == roots[..j] + [roots[j]];
    assert roots[..j + 1][..j] == roots[..j];
    forall i: nat, p | i < j + 1 && Wins(roots, i, p) && (complete || p.id !in before)
      ensures Renewed(before, p, after)
    {
      InUnion(roots[..j], p.id);
      if i < j {
        assert Manifest(p.id, p.content).id in Ids(roots[i].entries) && roots[..j][i] == roots[i];
        assert Same(now, after, p.id);
      } else {
        assert Same(before, now, p.id);
      }
    }
  }

  lemma LoadedGrows(roots: seq<Root>, j: nat, before: set<Id>, after: set<Id>)
    requires before <= after && j <= |roots| && forall i :: 0 <= i < j ==> RootLoaded(roots, i, before)
    ensures forall i :: 0 <= i < j ==> RootLoaded(roots, i, after)
  {
    forall i | 0 <= i < j ensures RootLoaded(roots, i, after) {
      assert RootLoaded(roots, i, before);
    }
  }

  /** What reconciliation removes is authorized when every directory was loaded and some world is live. */
  lemma RemovalAuthorized(change: Change, roots: seq<Root>, existing: set<Id>, skipped: set<Id>)
    requires change.Removed? && change.id !in Union(roots) && Union(roots) != {}
    requires forall i :: 0 <= i < |roots| ==> RootLoaded(roots, i, skipped)
    ensures Authorized(change, roots, existing, skipped)
  {
    InUnion(roots, change.id);
    var id :| id in Union(roots);
    InUnion(roots, id);
  }

  /** These packages have been seeded but for those already claimed, and nothing else. */
  ghost predicate Seeded(packages: seq<Package>, claimed: set<Id>, before: map<Id, World>, after: map<Id, World>)
  {
    && (forall p :: p in packages && p.id !in claimed ==> Renewed(before, p, after))
    && (forall id :: (id in claimed || forall p :: p in packages ==> p.id != id) ==> Same(before, after, id))
  }

  /** The only packages of their identities have been seeded but for those already claimed, and nothing else. */
  ghost predicate SeededFrom(entries: seq<Entry>, claimed: set<Id>, before: map<Id, World>, after: map<Id, World>)
  {
    && (forall p :: Holds(entries, p) && Count(entries, p.id) == 1 && p.id !in claimed ==> Renewed(before, p, after))
    && (forall id :: id in claimed || id !in Ids(entries) ==> Same(before, after, id))
  }

  lemma SeededMore(packages: seq<Package>, i: nat, claimed: set<Id>, before: map<Id, World>, now: map<Id, World>,
                   after: map<Id, World>)
    requires i < |packages| && packages[i].id !in claimed && Seeded(packages[..i], claimed, before, now)
    requires forall k, l :: 0 <= k < l < |packages| ==> packages[k].id != packages[l].id
    requires Renewed(now, packages[i], after) && forall id :: id != packages[i].id ==> Same(now, after, id)
    ensures Seeded(packages[..i + 1], claimed, before, after)
  {
    var last := packages[i];
    assert packages[..i + 1] == packages[..i] + [last];
    assert forall p :: p in packages[..i] ==> p.id != last.id;
    assert Same(before, now, last.id);
    forall p | p in packages[..i + 1] && p.id !in claimed ensures Renewed(before, p, after) {
      assert p != last ==> Same(now, after, p.id);
    }
    forall id | id in claimed || forall p :: p in packages[..i + 1] ==> p.id != id ensures Same(before, after, id) {
      assert last in packages[..i + 1] && Same(now, after, id);
    }
  }

  lemma SeededAll(entries: seq<Entry>, packages: seq<Package>, claimed: set<Id>, before: map<Id, World>,
                  after: map<Id, World>)
    requires forall p :: p in packages <==> Holds(entries, p) && Count(entries, p.id) == 1
    requires Seeded(packages, claimed, before, after)
    ensures SeededFrom(entries, claimed, before, after)
  {
    forall id | id in claimed || id !in Ids(entries) ensures Same(before, after, id) {
      forall p | p in packages && id !in claimed ensures p.id != id {
        assert Holds(entries, p) && Manifest(p.id, p.content).id in Ids(entries);
      }
    }
  }

  /** Seeding all directories and then, if it may, removing dead seeds is all that a pass is to do. */
  lemma PassDone(roots: seq<Root>, complete: bool, before: map<Id, World>, seeded: map<Id, World>,
                 after: map<Id, World>, sessions: set<Id>)
    requires RootsSeeded(roots, |roots|, complete, before, seeded) && (AllLoaded(roots) ==> complete)
    requires forall id :: if complete && Union(roots) != {} && id in seeded && Removable(seeded[id]) && id !in sessions
                             && id !in Union(roots)
                          then id !in after else Same(seeded, after, id)
    ensures Done(roots, before, after, sessions)
  {
    assert roots[..|roots|] == roots;
    forall j: nat, p | Wins(roots, j, p) && (AllLoaded(roots) || p.id !in before) ensures Renewed(before, p, after) {
      assert Manifest(p.id, p.content).id in Ids(roots[j].entries);
      InUnion(roots, p.id);
      assert Same(seeded, after, p.id) && Renewed(before, p, seeded);
    }
    forall i | AllLoaded(roots) && 0 <= i < |roots| && RootIds(roots[i]) != {} ensures Union(roots) != {} {
      var id :| id in RootIds(roots[i]);
      InUnion(roots, id);
    }
    forall id | AllLoaded(roots) && Union(roots) != {} && id in before && Removable(before[id]) && id !in sessions
                && forall i :: 0 <= i < |roots| ==> id !in RootIds(roots[i])
      ensures id !in after
    {
      InUnion(roots, id);
      assert Same(before, seeded, id);
    }
  }

  class Seeder {
    var worlds: map<Id, World>
    /** The worlds that have saved sessions. */
    var sessions: set<Id>
    /** Nothing else uses the store meanwhile. */
    const alone: bool
    /** No call of the store fails; one that does has changed nothing. */
    const reliable: bool
    /** A call of the store has failed while this pass was seeding. */
    ghost var failed: bool
    /** What has been done to the store, and the worlds found in deletion in this pass. */
    ghost var changes: seq<Change>
    ghost var skipped: set<Id>

    constructor (worlds: map<Id, World>, sessions: set<Id>, alone: bool, reliable: bool)
      ensures this.worlds == worlds && this.sessions == sessions && changes == []
      ensures this.alone == alone && this.reliable == reliable
    {
      this.worlds, this.sessions, this.alone, this.reliable := worlds, sessions, alone, reliable;
      changes, skipped := [], {};
    }

    predicate Undisturbed() { alone && reliable }

    /** Whether a call of the store fails. */
    method Fails() returns (fails: bool)
      ensures reliable ==> !fails
    {
      fails := *;
      fails := fails && !reliable;
    }

    /** Whatever others do to the store before the next lock is held. */
    method Others()
      modifies this`worlds, this`sessions
      ensures alone ==> worlds == old(worlds) && sessions == old(sessions)
    {
      if !alone {
        worlds, sessions := *, *;
      }
    }

    /** A step keeps protected worlds, if nothing else interferes. */
    twostate predicate Careful()
      reads this
    {
      alone ==> sessions == old(sessions) && Kept(old(worlds), worlds, sessions)
    }

    /** The work under the lock of one package's world. */
    method SeedPackage(ghost j: nat, p: Package) returns (ok: bool)
      modifies this
      ensures Careful()
      ensures ok ==> Loads(Manifest(p.id, p.content)) || p.id in skipped
      ensures reliable && Loads(Manifest(p.id, p.content)) ==> ok
      ensures alone && ok ==> Renewed(old(worlds), p, worlds)
      ensures alone ==> forall id :: (id == p.id ==> !ok) ==> Same(old(worlds), worlds, id)
      ensures alone ==> old(worlds.Keys) <= worlds.Keys
      ensures ok ==> failed == old(failed)
      ensures old(skipped) <= skipped
      ensures old(changes) <= changes
      ensures forall k :: |old(changes)| <= k < |changes| ==> UpsertOf(changes[k], j, p)
    {
      Others();
      var fails := Fails();
      if fails {
        failed := true;
        return false;
      }
      var existing := if p.id in worlds then Some(worlds[p.id]) else None;
      if existing.Some? && existing.value.metadata.deleting {
        skipped := skipped + {p.id};
        return true;
      }
      if p.content.WithoutRecord? || p.content.record.id != p.id {
        return false;
      }
      fails := Fails();
      if fails {
        failed := true;
        return false;
      }
      var after := PreserveWorldProvenance(p.content.record, existing);
      worlds := worlds[p.id := after];
      changes := changes + [Upserted(j, p.id, existing, after)];
      return true;
    }

    /** `seedWorlds` on a directory that can be listed. */
    method SeedWorlds(ghost j: nat, ghost roots: seq<Root>, ghost existing: set<Id>,
                      entries: seq<Entry>, claimed: set<Id>)
      returns (worldIds: set<Id>, complete: bool)
      requires j < |roots| && roots[j] == Listed(entries) && Claims(claimed, roots, j, existing)
      modifies this
      ensures Careful() && old(skipped) <= skipped && old(changes) <= changes
      ensures worldIds == Ids(entries)
      ensures complete ==>
                Complete(entries)
                && forall e :: e in entries && e.Manifest? ==> Loads(e) || e.id in skipped || e.id in claimed
      ensures reliable && Complete(entries) ==>
                (forall e :: e in entries && e.Manifest? ==> Loads(e) || e.id in claimed) ==> complete
      ensures Undisturbed() ==> SeededFrom(entries, claimed, old(worlds), worlds)
      ensures alone ==> old(worlds.Keys) <= worlds.Keys
      ensures complete ==> failed == old(failed)
      ensures AllAuthorized(changes, |old(changes)|, roots, existing, skipped)
    {
      var packages, ids, listed := LoadWorldPackages(entries);
      worldIds, complete := ids, listed;
      for i := 0 to |packages|
        invariant Careful() && old(skipped) <= skipped && old(changes) <= changes
        invariant complete ==> listed && forall p :: p in packages[..i] ==>
                    Loads(Manifest(p.id, p.content)) || p.id in skipped || p.id in claimed
        invariant reliable && listed ==>
                    (forall e :: e in entries && e.Manifest? ==> Loads(e) || e.id in claimed) ==> complete
        invariant Undisturbed() ==> Seeded(packages[..i], claimed, old(worlds), worlds)
        invariant alone ==> old(worlds.Keys) <= worlds.Keys
        invariant complete ==> failed == old(failed)
        invariant AllAuthorized(changes, |old(changes)|, roots, existing, skipped)
      {
        var p := packages[i];
        assert p in packages && Holds(entries, p) && packages[..i + 1] == packages[..i] + [p];
        assert p.id in RootIds(roots[j]) by { assert Manifest(p.id, p.content).id in Ids(entries); }
        if p.id !in claimed {
          label before:
          var ok := SeedPackage(j, p);
          if alone { KeptTransitive(old(worlds), old@before(worlds), worlds, sessions); }
          if Undisturbed() { SeededMore(packages, i, claimed, old(worlds), old@before(worlds), worlds); }
          forall k | |old(changes)| <= k < |changes|
            ensures Lawful(changes[k]) && Authorized(changes[k], roots, existing, skipped)
          {
            if k < |old@before(changes)| { assert changes[k] == old@before(changes)[k]; }
          }
          complete := complete && ok;
        }
      }
      assert packages[..|packages|] == packages;
      if Undisturbed() { SeededAll(entries, packages, claimed, old(worlds), worlds); }
      forall e | complete && e in entries && e.Manifest? ensures Loads(e) || e.id in skipped || e.id in claimed {
        assert Holds(entries, Package(e.id, e.content));
      }
    }

    /** The work of `reconcileSeededWorlds` under the lock of one world. */
    method ReconcileWorld(id: Id) returns (ok: bool)
      modifies this
      ensures Careful() && skipped == old(skipped) && old(changes) <= changes && failed == old(failed)
      ensures reliable ==> ok
      ensures forall k :: |old(changes)| <= k < |changes| ==>
                changes[k].Removed? && changes[k].id == id && Lawful(changes[k])
      ensures Undisturbed() ==> worlds == if id in old(worlds) && Removable(old(worlds)[id]) && id !in sessions
                                          then old(worlds) - {id} else old(worlds)
    {
      Others();
      var fails := Fails();
      if fails { return false; }
      if id !in worlds || !Removable(worlds[id]) || id in sessions { return true; }
      fails := Fails();
      if fails { return false; }
      changes := changes + [Removed(id, worlds[id], id in sessions)];
      worlds := worlds - {id};
      return true;
    }

    /** `reconcileSeededWorlds`, which visits the worlds in any order. */
    method ReconcileSeededWorlds(live: set<Id>)
      modifies this
      ensures Careful() && skipped == old(skipped) && old(changes) <= changes && failed == old(failed)
      ensures forall k :: |old(changes)| <= k < |changes| ==>
                changes[k].Removed? && changes[k].id !in live && Lawful(changes[k])
      ensures Undisturbed() ==>
                forall id :: if id in old(worlds) && Removable(old(worlds)[id]) && id !in sessions && id !in live
                             then id !in worlds else Same(old(worlds), worlds, id)
    {
      Others();
      var fails := Fails();
      if fails { return; }
      var rest := worlds.Keys;
      while rest != {}
        invariant Careful() && skipped == old(skipped) && old(changes) <= changes && failed == old(failed)
        invariant forall k :: |old(changes)| <= k < |changes| ==>
                    changes[k].Removed? && changes[k].id !in live && Lawful(changes[k])
        invariant alone ==> rest <= old(worlds.Keys)
        invariant Undisturbed() ==>
                    forall id :: if id in old(worlds) && Removable(old(worlds)[id]) && id !in sessions && id !in live
                                    && id !in rest
                                 then id !in worlds else Same(old(worlds), worlds, id)
        decreases |rest|
      {
        var id :| id in rest;
        rest := rest - {id};
        if id !in live {
          label before:
          var ok := ReconcileWorld(id);
          if alone { KeptTransitive(old(worlds), old@before(worlds), worlds, sessions); }
          forall k | |old(changes)| <= k < |changes|
            ensures changes[k].Removed? && changes[k].id !in live && Lawful(changes[k])
          {
            if k < |old@before(changes)| { assert changes[k] == old@before(changes)[k]; }
          }
          if !ok { return; }
        }
      }
    }

    /** The first `j` directories have been seeded; `start` is what the store held before. */
    ghost predicate Progress(roots: seq<Root>, j: nat, live: set<Id>, complete: bool, claimed: set<Id>,
                             existing: set<Id>, start: map<Id, World>, from: nat)
      reads this
    {
      && Claims(claimed, roots, j, existing) && live == Union(roots[..j])
      && (complete ==> claimed == live) && live <= claimed <= live + existing
      && (complete ==> forall i :: 0 <= i < j ==> RootLoaded(roots, i, skipped))
      && (reliable && (forall i :: 0 <= i < j ==> RootLoaded(roots, i, {})) ==> complete)
      && AllAuthorized(changes, from, roots, existing, skipped)
      && (alone ==> existing == start.Keys && start.Keys <= worlds.Keys) && (complete ==> !failed)
      && (Undisturbed() ==> RootsSeeded(roots, j, complete, start, worlds))
    }

    /** One turn of the loop of `seedAndReconcileWorlds`. */
    method SeedRoot(roots: seq<Root>, j: nat, live: set<Id>, complete: bool, claimed: set<Id>, existing: set<Id>,
                    ghost start: map<Id, World>, ghost from: nat)
      returns (live': set<Id>, complete': bool, claimed': set<Id>)
      requires j < |roots| && from <= |changes|
      requires Progress(roots, j, live, complete, claimed, existing, start, from)
      modifies this
      ensures Careful() && old(changes) <= changes
      ensures Progress(roots, j + 1, live', complete', claimed', existing, start, from)
    {
      live', complete', claimed' := live, complete, claimed;
      assert roots[..j + 1] == roots[..j] + [roots[j]];
      match roots[j]
      case Unlisted =>
        assert !RootLoaded(roots, j, {});
        if Undisturbed() { UnlistedSeedsNothing(roots, j, complete, start, worlds); }
        complete', claimed' := false, claimed + existing;
      case Listed(entries) =>
        if RootLoaded(roots, j, {}) { LoadedIsClaimed(roots, j); }
        var worldIds, seeded := SeedWorlds(j, roots, existing, entries, claimed);
        assert reliable && complete && RootLoaded(roots, j, {}) ==> seeded;
        live', claimed' := live + worldIds, claimed + worldIds;
        if !seeded {
          complete', claimed' := false, claimed' + existing;
        }
        AuthorizedOnward(old(changes), changes, from, roots, existing, old(skipped), skipped);
        if complete' {
          NextLoaded(roots, j, skipped);
          LoadedGrows(roots, j, old(skipped), skipped);
        }
        if Undisturbed() { RootsSeededMore(roots, j, claimed, complete', start, old(worlds), worlds); }
    }

    /** The loop of `seedAndReconcileWorlds`; the directories are given with the one with priority first. */
    method SeedRoots(roots: seq<Root>) returns (live: set<Id>, complete: bool, ghost existing: set<Id>)
      modifies this
      ensures Careful() && old(changes) <= changes
      ensures live == Union(roots)
      ensures complete ==> forall i :: 0 <= i < |roots| ==> RootLoaded(roots, i, skipped)
      ensures reliable && AllLoaded(roots) ==> complete
      ensures AllAuthorized(changes, |old(changes)|, roots, existing, skipped)
      ensures alone ==> existing == old(worlds.Keys) && old(worlds.Keys) <= worlds.Keys
      ensures Undisturbed() ==> RootsSeeded(roots, |roots|, complete, old(worlds), worlds)
      ensures complete ==> !failed
    {
      skipped, failed := {}, false;
      Others();
      live, complete := {}, true;
      var claimed: set<Id> := {};
      var existingIds := worlds.Keys;
      existing := existingIds;
      for j := 0 to |roots|
        invariant Careful() && old(changes) <= changes
        invariant Progress(roots, j, live, complete, claimed, existing, old(worlds), |old(changes)|)
      {
        label before:
        live, complete, claimed :=
          SeedRoot(roots, j, live, complete, claimed, existingIds, old(worlds), |old(changes)|);
        if alone { KeptTransitive(old(worlds), old@before(worlds), worlds, sessions); }
      }
      assert roots[..|roots|] == roots;
    }

    /** `seedAndReconcileWorlds`. */
    method Pass(roots: seq<Root>) returns (ghost existing: set<Id>)
      modifies this
      ensures Careful() && old(changes) <= changes
      ensures AllAuthorized(changes, |old(changes)|, roots, existing, skipped)
      ensures alone ==> existing == old(worlds.Keys)
      ensures alone && failed ==> old(worlds.Keys) <= worlds.Keys
      ensures Undisturbed() ==> Done(roots, old(worlds), worlds, sessions)
    {
      var live, complete;
      var fails := Fails();
      if fails { return worlds.Keys; }
      live, complete, existing := SeedRoots(roots);
      if complete && live != {} {
        label seeded:
        ReconcileSeededWorlds(live);
        if alone { KeptTransitive(old(worlds), old@seeded(worlds), worlds, sessions); }
        forall k | |old(changes)| <= k < |changes|
          ensures Lawful(changes[k]) && Authorized(changes[k], roots, existing, skipped)
        {
          if k < |old@seeded(changes)| {
            assert changes[k] == old@seeded(changes)[k];
          } else {
            RemovalAuthorized(changes[k], roots, existing, skipped);
          }
        }
        if Undisturbed() { PassDone(roots, complete, old(worlds), old@seeded(worlds), worlds, sessions); }
      } else if Undisturbed() {
        PassDone(roots, complete, old(worlds), worlds, worlds, sessions);
      }
    }

    /** Any start-ups, each with its own directories; `states` are the worlds before, between and after them. */
    method Run(passes: seq<seq<Root>>) returns (ghost states: seq<map<Id, World>>)
      requires changes == []
      modifies this
      ensures Careful()
      ensures forall k :: 0 <= k < |changes| ==> Lawful(changes[k])
      ensures |states| == |passes| + 1 && states[0] == old(worlds) && states[|passes|] == worlds
      ensures Undisturbed() ==> forall k :: 0 <= k < |passes| ==> Done(passes[k], states[k], states[k + 1], sessions)
    {
      states := [worlds];
      for i := 0 to |passes|
        invariant Careful() && forall k :: 0 <= k < |changes| ==> Lawful(changes[k])
        invariant |states| == i + 1 && states[0] == old(worlds) && states[i] == worlds
        invariant Undisturbed() ==> forall k :: 0 <= k < i ==> Done(passes[k], states[k], states[k + 1], sessions)
      {
        label before:
        ghost var _ := Pass(passes[i]);
        forall k | 0 <= k < |changes| ensures Lawful(changes[k]) {
          if k < |old@before(changes)| { assert changes[k] == old@before(changes)[k]; }
        }
        if alone { KeptTransitive(old(worlds), old@before(worlds), worlds, sessions); }
        states := states + [worlds];
      }
    }
  }

  /** A package that loads, of a world that is a file's. */
  function Bundled(id: Id): Package
  {
    Package(id, WithRecord(World(id, 0, "", Metadata(Some(FILE), None, false, false, ""))))
  }

  function Bundle(ids: seq<Id>): Root
  {
    Listed(seq(|ids|, i requires 0 <= i < |ids| => Manifest(ids[i], Bundled(ids[i]).content)))
  }

  lemma BundleHas(ids: seq<Id>)
    requires forall i, j :: 0 <= i < j < |ids| ==> ids[i] != ids[j]
    ensures Ids(Bundle(ids).entries) == set id | id in ids
    ensures forall id :: Count(Bundle(ids).entries, id) == if id in ids then 1 else 0
    ensures forall id :: id in ids ==> Holds(Bundle(ids).entries, Bundled(id))
  {
    if ids == [] {
    } else {
      var rest, last := ids[..|ids| - 1], ids[|ids| - 1];
      BundleHas(rest);
      var entries := Bundle(ids).entries;
      assert entries[..|ids| - 1] == Bundle(rest).entries;
      assert ids == rest + [last] && entries == Bundle(rest).entries + [entries[|ids| - 1]];
    }
  }

  lemma BundleLoads(ids: seq<Id>)
    requires forall i, j :: 0 <= i < j < |ids| ==> ids[i] != ids[j]
    ensures RootLoaded([Bundle(ids)], 0, {}) && AllLoaded([Bundle(ids)])
  {
    BundleHas(ids);
    forall e | e in Bundle(ids).entries ensures e.Manifest? && e.id in ids && Loads(e) {
      var i :| 0 <= i < |ids| && Bundle(ids).entries[i] == e;
    }
  }

  /**
    * How a world that was no file's is lost: one pass over a directory that has a package of its identity gives
    * it the package's source, and the next, over one that no longer has it, removes it.
    */
  method SourcelessWorldIsLost() returns (before: map<Id, World>, after: map<Id, World>)
    ensures 1 in before && !Removable(before[1]) && before[1].metadata.source.None?
    ensures 1 !in after
  {
    before := map[1 := World(1, 5, "mine", Metadata(None, None, false, false, ""))];
    var seeder := new Seeder(before, {}, true, true);
    var first, second := [Bundle([1, 2])], [Bundle([2])];
    BundleHas([1, 2]);
    BundleLoads([1, 2]);
    BundleHas([2]);
    BundleLoads([2]);
    ghost var _ := seeder.Pass(first);
    assert Wins(first, 0, Bundled(1)) && Renewed(before, Bundled(1), seeder.worlds);
    ReseedKeepsUnremovable(Bundled(1).content.record, before[1]);
    ghost var _ := seeder.Pass(second);
    assert 2 in RootIds(second[0]);
    after := seeder.worlds;
  }
}
