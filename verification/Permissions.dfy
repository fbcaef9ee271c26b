/** Permission entries as values: merging, the linear scan they stand for, and their canonical form. */
module Permissions {
  import opened Sequences
  import opened Ordering

  const TYPE_USER := "user"
  const TYPE_GROUP := "group"

  const READ := "read"
  const WRITE := "write"
  const GRANT := "grant"
  const FULL := "full"

  /** The default of the build; so is ADMIN_GROUP in `Settings`. */
  const SUPERUSER := "hacluster"

  datatype Entity = Entity(kind: string, name: string, allow: seq<string>)

  // ----- what a list of permissions grants -----------------------------------

  function AlsoAllows(permission: string): seq<string> {
    if permission == WRITE then [READ]
    else if permission == FULL then [READ, WRITE, GRANT]
    else []
  }

  /** The lookup of `EntityPermissions#allows?`: the action itself, or one of two permissions that imply it. */
  predicate EntityAllows(allow: seq<string>, action: string) {
    action in allow
    || (action in AlsoAllows(WRITE) && WRITE in allow)
    || (action in AlsoAllows(FULL) && FULL in allow)
  }

  /** `action` follows from `permission` in at most `steps` dependencies. */
  ghost predicate Implies(permission: string, action: string, steps: nat)
    decreases steps
  {
    permission == action
    || (steps > 0 && exists next <- AlsoAllows(permission) :: Implies(next, action, steps - 1))
  }

  /** One level of dependencies is all of them. */
  lemma {:induction false} OneLevelIsClosure(permission: string, action: string, steps: nat)
    ensures Implies(permission, action, steps) ==> permission == action || action in AlsoAllows(permission)
    ensures permission == action || action in AlsoAllows(permission) ==> Implies(permission, action, steps + 1)
    decreases steps
  {
    if permission != action && Implies(permission, action, steps) {
      var next :| next in AlsoAllows(permission) && Implies(next, action, steps - 1);
      OneLevelIsClosure(next, action, steps - 1);
    }
    if action in AlsoAllows(permission) {
      assert Implies(action, action, steps);
    }
  }

  lemma ImplyingPermission(allow: seq<string>, permission: string, action: string)
    requires permission in allow && (permission == action || action in AlsoAllows(permission))
    ensures EntityAllows(allow, action)
  {
    if permission != action {
      assert permission == WRITE || permission == FULL;
    }
  }

  /** `allows?` decides whether some listed permission implies the action, through any number of dependencies. */
  lemma EntityAllowsClosure(allow: seq<string>, action: string)
    ensures EntityAllows(allow, action) <==> exists p <- allow, steps: nat :: Implies(p, action, steps)
  {
    if EntityAllows(allow, action) {
      var p :| p in allow && (p == action || action in AlsoAllows(p));
      OneLevelIsClosure(p, action, 0);
      var one: nat := 1;
      assert p in allow && Implies(p, action, one);
    }
    if exists p <- allow, steps: nat :: Implies(p, action, steps) {
      var p, steps: nat :| p in allow && Implies(p, action, steps);
      OneLevelIsClosure(p, action, steps);
      ImplyingPermission(allow, p, action);
    }
  }

  /** Who may do what, permission by permission. */
  predicate MayDo(allow: seq<string>, action: string) {
    if action == "read" then "read" in allow || "write" in allow || "full" in allow
    else if action == "write" then "write" in allow || "full" in allow
    else if action == "grant" then "grant" in allow || "full" in allow
    else action in allow
  }

  lemma EntityAllowsTable(allow: seq<string>, action: string)
    ensures EntityAllows(allow, action) <==> MayDo(allow, action)
  {
    assert AlsoAllows(WRITE) == ["read"] && AlsoAllows(FULL) == ["read", "write", "grant"];
  }

  // ----- merging and scanning ------------------------------------------------

  predicate For(e: Entity, kind: string, name: string) {
    e.kind == kind && e.name == name
  }

  predicate Has(entities: seq<Entity>, kind: string, name: string) {
    exists i | 0 <= i < |entities| :: For(entities[i], kind, name)
  }

  /** What the permission lists of one user or group merge into, one entry after the other. */
  function Merged(entities: seq<Entity>, kind: string, name: string): seq<string> {
    if entities == [] then []
    else
      var front, last := entities[..|entities| - 1], entities[|entities| - 1];
      if !For(last, kind, name) then Merged(front, kind, name)
      else if Has(front, kind, name) then Uniq(Merged(front, kind, name) + last.allow)
      else last.allow
  }

  ghost predicate Granted(entities: seq<Entity>, kind: string, name: string, permission: string) {
    exists i | 0 <= i < |entities| :: For(entities[i], kind, name) && permission in entities[i].allow
  }

  lemma MergedSnoc(front: seq<Entity>, last: Entity, kind: string, name: string)
    ensures Has(front + [last], kind, name) <==> Has(front, kind, name) || For(last, kind, name)
    ensures Merged(front + [last], kind, name) ==
      if !For(last, kind, name) then Merged(front, kind, name)
      else if Has(front, kind, name) then Uniq(Merged(front, kind, name) + last.allow)
      else last.allow
  {
    var all := front + [last];
    assert all[..|front|] == front && all[|front|] == last;
    if Has(front, kind, name) {
      var i :| 0 <= i < |front| && For(front[i], kind, name);
      assert For(all[i], kind, name);
    }
  }

  /** An entry for a user or group that had one. */
  lemma MergedAgain(before: seq<Entity>, last: Entity)
    requires Has(before, last.kind, last.name)
    ensures forall k, n :: Has(before + [last], k, n) <==> Has(before, k, n)
    ensures forall k, n ::
      Merged(before + [last], k, n) ==
        if For(last, k, n) then Uniq(Merged(before, k, n) + last.allow) else Merged(before, k, n)
  {
    forall k, n
      ensures Has(before + [last], k, n) <==> Has(before, k, n)
      ensures Merged(before + [last], k, n) ==
        if For(last, k, n) then Uniq(Merged(before, k, n) + last.allow) else Merged(before, k, n)
    {
      MergedSnoc(before, last, k, n);
    }
  }

  /** The first entry for a user or group. */
  lemma MergedFirst(before: seq<Entity>, last: Entity)
    requires !Has(before, last.kind, last.name)
    ensures forall k, n :: Has(before + [last], k, n) <==> Has(before, k, n) || For(last, k, n)
    ensures forall k, n :: Merged(before + [last], k, n) == if For(last, k, n) then last.allow else Merged(before, k, n)
  {
    forall k, n
      ensures Has(before + [last], k, n) <==> Has(before, k, n) || For(last, k, n)
      ensures Merged(before + [last], k, n) == if For(last, k, n) then last.allow else Merged(before, k, n)
    {
      MergedSnoc(before, last, k, n);
    }
  }

  lemma GrantedSnoc(front: seq<Entity>, last: Entity, kind: string, name: string, permission: string)
    ensures Granted(front + [last], kind, name, permission) <==>
      Granted(front, kind, name, permission) || (For(last, kind, name) && permission in last.allow)
    ensures Granted(front, kind, name, permission) ==> Has(front, kind, name)
  {
    var all := front + [last];
    assert all[|front|] == last;
    if Granted(front, kind, name, permission) {
      var i :| 0 <= i < |front| && For(front[i], kind, name) && permission in front[i].allow;
      assert For(all[i], kind, name) && permission in all[i].allow;
    }
  }

  /** Merging keeps the permissions listed and adds none. */
  lemma {:induction false} MergedGrants(entities: seq<Entity>, kind: string, name: string, permission: string)
    ensures permission in Merged(entities, kind, name) <==> Granted(entities, kind, name, permission)
    ensures !Has(entities, kind, name) ==> Merged(entities, kind, name) == []
  {
    if entities != [] {
      var front, last := entities[..|entities| - 1], entities[|entities| - 1];
      assert entities == front + [last];
      MergedGrants(front, kind, name, permission);
      MergedSnoc(front, last, kind, name);
      GrantedSnoc(front, last, kind, name, permission);
      UniqIsUniq(Merged(front, kind, name) + last.allow);
    }
  }

  /** The entry speaks for the user or one of the groups. */
  predicate Applies(e: Entity, username: string, groups: seq<string>) {
    (e.kind == TYPE_USER && e.name == username) || (e.kind == TYPE_GROUP && e.name in groups)
  }

  /** The plain meaning: some entry for the user or a group grants the action, directly or by dependency. */
  ghost predicate ScanAllows(entities: seq<Entity>, username: string, groups: seq<string>, action: string) {
    username == SUPERUSER || exists e <- entities :: Applies(e, username, groups) && EntityAllows(e.allow, action)
  }

  /** The superuser may do anything, others what some entry for them or one of their groups lets them do. */
  ghost predicate HasAccess(entities: seq<Entity>, username: string, groups: seq<string>, action: string) {
    || username == "hacluster"
    || exists e <- entities ::
      && ((e.kind == "user" && e.name == username) || (e.kind == "group" && e.name in groups))
      && MayDo(e.allow, action)
  }

  lemma ScanMeans(entities: seq<Entity>, username: string, groups: seq<string>, action: string)
    ensures ScanAllows(entities, username, groups, action) <==> HasAccess(entities, username, groups, action)
  {
    forall e <- entities ensures EntityAllows(e.allow, action) <==> MayDo(e.allow, action) {
      EntityAllowsTable(e.allow, action);
    }
    forall e <- entities
      ensures Applies(e, username, groups) <==>
        (e.kind == "user" && e.name == username) || (e.kind == "group" && e.name in groups)
    {
    }
  }

  /** What `PermissionsSet#allows?` looks up. */
  ghost predicate MergedAllows(entities: seq<Entity>, username: string, groups: seq<string>, action: string) {
    || username == SUPERUSER
    || EntityAllows(Merged(entities, TYPE_USER, username), action)
    || exists g <- groups :: EntityAllows(Merged(entities, TYPE_GROUP, g), action)
  }

  lemma MergedAllowsOne(entities: seq<Entity>, kind: string, name: string, action: string)
    ensures EntityAllows(Merged(entities, kind, name), action) <==>
      exists e <- entities :: For(e, kind, name) && EntityAllows(e.allow, action)
  {
    MergedGrants(entities, kind, name, action);
    MergedGrants(entities, kind, name, WRITE);
    MergedGrants(entities, kind, name, FULL);
    if EntityAllows(Merged(entities, kind, name), action) {
      var p := if Granted(entities, kind, name, action) then action
               else if Granted(entities, kind, name, WRITE) && action in AlsoAllows(WRITE) then WRITE else FULL;
      var i :| 0 <= i < |entities| && For(entities[i], kind, name) && p in entities[i].allow;
      assert entities[i] in entities;
    }
    if exists e <- entities :: For(e, kind, name) && EntityAllows(e.allow, action) {
      var e :| e in entities && For(e, kind, name) && EntityAllows(e.allow, action);
      var i :| 0 <= i < |entities| && entities[i] == e;
    }
  }

  /** The merged index answers like the scan. */
  lemma IndexRefinesScan(entities: seq<Entity>, username: string, groups: seq<string>, action: string)
    ensures MergedAllows(entities, username, groups, action) <==> ScanAllows(entities, username, groups, action)
  {
    MergedAllowsOne(entities, TYPE_USER, username, action);
    forall g <- groups
      ensures EntityAllows(Merged(entities, TYPE_GROUP, g), action) <==>
        exists e <- entities :: For(e, TYPE_GROUP, g) && EntityAllows(e.allow, action)
    {
      MergedAllowsOne(entities, TYPE_GROUP, g, action);
    }
  }

  /** Entries put in anywhere never revoke access. */
  lemma MoreEntriesNeverRevoke(
      before: seq<Entity>, more: seq<Entity>, after: seq<Entity>,
      username: string, groups: seq<string>, action: string)
    requires MergedAllows(before + after, username, groups, action)
    ensures MergedAllows(before + more + after, username, groups, action)
  {
    IndexRefinesScan(before + after, username, groups, action);
    IndexRefinesScan(before + more + after, username, groups, action);
    if username != SUPERUSER {
      var e :| e in before + after && Applies(e, username, groups) && EntityAllows(e.allow, action);
      assert e in before + more + after;
    }
  }

  // ----- the saved form ------------------------------------------------------

  predicate EntityLess(a: Entity, b: Entity) {
    if a.kind == b.kind then Less(a.name, b.name) else Less(a.kind, b.kind)
  }

  lemma EntitiesAreOrdered()
    ensures StrictOrder(EntityLess)
  {
    StringsAreOrdered();
    forall a, b, c | EntityLess(a, b) && EntityLess(b, c) ensures EntityLess(a, c) {
      assert a.kind == b.kind == c.kind ==> Less(a.name, c.name);
    }
  }

  function KeysOf(entities: seq<Entity>): seq<(string, string)> {
    seq(|entities|, i requires 0 <= i < |entities| => (entities[i].kind, entities[i].name))
  }

  function HashEntity(entities: seq<Entity>, key: (string, string)): Entity {
    Entity(key.0, key.1, UniqSort(Merged(entities, key.0, key.1)))
  }

  function HashEntities(entities: seq<Entity>, keys: seq<(string, string)>): seq<Entity> {
    seq(|keys|, i requires 0 <= i < |keys| => HashEntity(entities, keys[i]))
  }

  /** `PermissionsSet#to_hash`: one sorted entry per user or group, sorted by type and name. */
  function ToHash(entities: seq<Entity>): seq<Entity> {
    Sort(HashEntities(entities, Uniq(KeysOf(entities))), EntityLess)
  }

  /** The keys of the index are the users and groups of the entries. */
  lemma OwnKeys(entities: seq<Entity>)
    ensures var own := Uniq(KeysOf(entities));
      NoRepeats(own) && forall k, n :: (k, n) in own <==> Has(entities, k, n)
  {
    var own := Uniq(KeysOf(entities));
    UniqIsUniq(KeysOf(entities));
    forall k, n ensures (k, n) in own <==> Has(entities, k, n) {
      if Has(entities, k, n) {
        var i :| 0 <= i < |entities| && For(entities[i], k, n);
        assert KeysOf(entities)[i] == (k, n);
      }
      if (k, n) in own {
        var i :| 0 <= i < |entities| && KeysOf(entities)[i] == (k, n);
        assert For(entities[i], k, n);
      }
    }
  }

  /** Sorted, with one entry for each user or group there is. */
  ghost predicate IsHash(r: seq<Entity>, entities: seq<Entity>) {
    && Sorted(r, EntityLess)
    && forall e :: e in r <==> Has(entities, e.kind, e.name) && e == HashEntity(entities, (e.kind, e.name))
  }

  /** Any other order of the index gives the same hash. */
  lemma HashInAnyOrder(entities: seq<Entity>, keys: seq<(string, string)>)
    requires NoRepeats(keys) && forall k, n :: (k, n) in keys <==> Has(entities, k, n)
    ensures Sort(HashEntities(entities, keys), EntityLess) == ToHash(entities)
    ensures IsHash(ToHash(entities), entities)
  {
    var own := Uniq(KeysOf(entities));
    OwnKeys(entities);
    HashSorted(entities, keys);
    HashSorted(entities, own);
    EntitiesAreOrdered();
    SortedIsCanonical(Sort(HashEntities(entities, keys), EntityLess), ToHash(entities), EntityLess);
  }

  /** Entries stand in the order of their types and, within a type, of their names. */
  lemma HashIsOrdered(entities: seq<Entity>, i: nat, j: nat)
    requires i < j < |ToHash(entities)|
    ensures var (a, b) := (ToHash(entities)[i], ToHash(entities)[j]);
      if a.kind == b.kind then Before(a.name, b.name) else Before(a.kind, b.kind)
  {
    HashSpec(entities);
    var (a, b) := (ToHash(entities)[i], ToHash(entities)[j]);
    assert EntityLess(a, b);
    LessMeans(a.name, b.name);
    LessMeans(a.kind, b.kind);
  }

  /** The permissions of an entry are those that some entry lists for the user or group. */
  lemma HashLists(entities: seq<Entity>, e: Entity, p: string)
    requires e in ToHash(entities)
    ensures p in e.allow <==> exists x <- entities :: x.kind == e.kind && x.name == e.name && p in x.allow
  {
    HashSpec(entities);
    UniqSortSorts(Merged(entities, e.kind, e.name));
    MergedGrants(entities, e.kind, e.name, p);
    GrantedMeans(entities, e.kind, e.name, p);
  }

  lemma GrantedMeans(entities: seq<Entity>, kind: string, name: string, p: string)
    ensures Granted(entities, kind, name, p) <==>
      exists x <- entities :: x.kind == kind && x.name == name && p in x.allow
  {
    if Granted(entities, kind, name, p) {
      var i :| 0 <= i < |entities| && For(entities[i], kind, name) && p in entities[i].allow;
      assert entities[i] in entities;
    }
    if x :| x in entities && x.kind == kind && x.name == name && p in x.allow {
      var i :| 0 <= i < |entities| && entities[i] == x;
      assert For(entities[i], kind, name);
    }
  }

  lemma HashSorted(entities: seq<Entity>, keys: seq<(string, string)>)
    requires NoRepeats(keys) && forall k, n :: (k, n) in keys <==> Has(entities, k, n)
    ensures IsHash(Sort(HashEntities(entities, keys), EntityLess), entities)
  {
    var es := HashEntities(entities, keys);
    EntitiesAreOrdered();
    assert NoRepeats(es) by {
      forall i, j | 0 <= i < j < |es| ensures es[i] != es[j] {
        assert keys[i] != keys[j];
      }
    }
    forall x <- es, y <- es ensures x == y || EntityLess(x, y) || EntityLess(y, x) {
      LessIsTotal(x.name, y.name);
      LessIsTotal(x.kind, y.kind);
    }
    SortSorts(es, EntityLess);
    forall e ensures e in es <==> Has(entities, e.kind, e.name) && e == HashEntity(entities, (e.kind, e.name)) {
      if Has(entities, e.kind, e.name) && e == HashEntity(entities, (e.kind, e.name)) {
        assert (e.kind, e.name) in keys;
        var i :| 0 <= i < |keys| && keys[i] == (e.kind, e.name);
        assert es[i] == e;
      }
      if e in es {
        var i :| 0 <= i < |es| && es[i] == e;
        assert keys[i] in keys;
      }
    }
  }

  lemma HashSpec(entities: seq<Entity>)
    ensures IsHash(ToHash(entities), entities)
  {
    OwnKeys(entities);
    HashSorted(entities, Uniq(KeysOf(entities)));
  }

  /** The same users and groups, with the same permissions, however split over entries and in whatever order. */
  ghost predicate SameGrants(a: seq<Entity>, b: seq<Entity>) {
    && (forall k, n :: Has(a, k, n) <==> Has(b, k, n))
    && (forall k, n, p :: Granted(a, k, n, p) <==> Granted(b, k, n, p))
  }

  /** The hash is canonical: equal exactly for lists that grant the same. */
  lemma HashIsCanonical(a: seq<Entity>, b: seq<Entity>)
    ensures ToHash(a) == ToHash(b) <==> SameGrants(a, b)
  {
    HashSpec(a);
    HashSpec(b);
    EntitiesAreOrdered();
    if SameGrants(a, b) {
      forall k, n ensures HashEntity(a, (k, n)) == HashEntity(b, (k, n)) {
        forall p ensures p in Merged(a, k, n) <==> p in Merged(b, k, n) {
          MergedGrants(a, k, n, p);
          MergedGrants(b, k, n, p);
        }
        UniqSortIsCanonical(Merged(a, k, n), Merged(b, k, n));
      }
      SortedIsCanonical(ToHash(a), ToHash(b), EntityLess);
    }
    if ToHash(a) == ToHash(b) {
      forall k, n ensures Has(a, k, n) <==> Has(b, k, n) {
        SameHashSameEntry(a, b, k, n);
        SameHashSameEntry(b, a, k, n);
      }
      forall k, n, p ensures Granted(a, k, n, p) <==> Granted(b, k, n, p) {
        SameHashSameEntry(a, b, k, n);
        SameHashSameEntry(b, a, k, n);
        MergedGrants(a, k, n, p);
        MergedGrants(b, k, n, p);
        UniqSortIsCanonical(Merged(a, k, n), Merged(b, k, n));
      }
    }
  }

  lemma SameHashSameEntry(a: seq<Entity>, b: seq<Entity>, k: string, n: string)
    requires ToHash(a) == ToHash(b)
    ensures Has(a, k, n) ==> Has(b, k, n) && HashEntity(a, (k, n)) == HashEntity(b, (k, n))
  {
    HashSpec(a);
    HashSpec(b);
    if Has(a, k, n) {
      assert HashEntity(a, (k, n)) in ToHash(a);
    }
  }

  /** Reading the hash back and writing it again gives the hash. */
  lemma HashTwice(entities: seq<Entity>)
    ensures ToHash(ToHash(entities)) == ToHash(entities)
    ensures SameGrants(ToHash(entities), entities)
  {
    HashSpec(entities);
    var h := ToHash(entities);
    forall k, n ensures Has(h, k, n) <==> Has(entities, k, n) {
      if Has(entities, k, n) {
        assert HashEntity(entities, (k, n)) in h;
        var i :| 0 <= i < |h| && h[i] == HashEntity(entities, (k, n));
        assert For(h[i], k, n);
      }
      if Has(h, k, n) {
        var i :| 0 <= i < |h| && For(h[i], k, n);
        assert h[i] in h;
      }
    }
    forall k, n, p ensures Granted(h, k, n, p) <==> Granted(entities, k, n, p) {
      MergedGrants(entities, k, n, p);
      UniqSortSorts(Merged(entities, k, n));
      if Granted(entities, k, n, p) {
        assert Has(entities, k, n);
        var i :| 0 <= i < |h| && h[i] == HashEntity(entities, (k, n)) by { assert HashEntity(entities, (k, n)) in h; }
        assert For(h[i], k, n) && p in h[i].allow;
      }
      if Granted(h, k, n, p) {
        var i :| 0 <= i < |h| && For(h[i], k, n) && p in h[i].allow;
        assert h[i] in h;
      }
    }
    HashIsCanonical(h, entities);
  }
}
