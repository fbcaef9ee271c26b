/** The merged index as objects: entries are merged in place into the first entry of a user or group. */
module PermissionsIndex {
  import opened Sequences
  import opened Ordering
  import opened Permissions

  class EntityPermissions {
    const kind: string
    const name: string
    var allowList: seq<string>

    constructor (kind: string, name: string, allowList: seq<string>)
      ensures this.kind == kind && this.name == name && this.allowList == Uniq(allowList)
    {
      this.kind, this.name, this.allowList := kind, name, Uniq(allowList);
    }

    method Merge(other: EntityPermissions)
      modifies this
      ensures allowList == old(Uniq(allowList + other.allowList))
    {
      allowList := Uniq(allowList + other.allowList);
    }

    function AsEntity(): Entity
      reads this
    {
      Entity(kind, name, allowList)
    }
  }

  ghost function AsEntities(list: seq<EntityPermissions>): seq<Entity>
    reads list
  {
    seq(|list|, i requires 0 <= i < |list| reads list => list[i].AsEntity())
  }

  /** Users and groups as in `list`, and one description for one object. */
  ghost predicate Describes(list: seq<EntityPermissions>, entities: seq<Entity>) {
    && |list| == |entities|
    && (forall j | 0 <= j < |list| :: For(entities[j], list[j].kind, list[j].name))
    && forall j, k | 0 <= j < |list| && 0 <= k < |list| && list[j] == list[k] :: entities[j] == entities[k]
  }

  ghost function EntriesOf(index: map<string, map<string, EntityPermissions>>): set<EntityPermissions> {
    set k, n | k in index && n in index[k] :: index[k][n]
  }

  lemma EntriesOfMore(index: map<string, map<string, EntityPermissions>>, k: string, n: string, p: EntityPermissions)
    requires k in index && n !in index[k]
    ensures EntriesOf(index[k := index[k][n := p]]) == EntriesOf(index) + {p}
  {
    var more := index[k := index[k][n := p]];
    forall x <- EntriesOf(index) + {p} ensures x in EntriesOf(more) {
      if x == p {
        assert k in more && n in more[k] && more[k][n] == p;
      } else {
        var a, b :| a in index && b in index[a] && index[a][b] == x;
        assert a in more && b in more[a] && more[a][b] == x;
      }
    }
    forall x <- EntriesOf(more) ensures x in EntriesOf(index) + {p} {
      var a, b :| a in more && b in more[a] && more[a][b] == x;
      assert (a, b) != (k, n) ==> a in index && b in index[a] && index[a][b] == x;
    }
  }

  lemma OneMoreEntry(index: map<string, map<string, EntityPermissions>>, k: string, n: string, p: EntityPermissions)
    requires k in index
    ensures var more := index[k := index[k][n := p]];
      && (forall a, b :: a in more && b in more[a] <==> (a in index && b in index[a]) || (a == k && b == n))
      && forall a, b | a in more && b in more[a] :: more[a][b] == if a == k && b == n then p else index[a][b]
  {
  }

  lemma EntriesOfNewKind(index: map<string, map<string, EntityPermissions>>, k: string)
    requires k !in index
    ensures EntriesOf(index[k := map[]]) == EntriesOf(index)
  {
    var more := index[k := map[]];
    forall x <- EntriesOf(index) ensures x in EntriesOf(more) {
      var a, b :| a in index && b in index[a] && index[a][b] == x;
      assert a in more && b in more[a] && more[a][b] == x;
    }
  }

  class PermissionsSet {
    var permissions: map<string, map<string, EntityPermissions>>

    ghost function Entries(): set<EntityPermissions>
      reads this
    {
      EntriesOf(permissions)
    }

    predicate Knows(kind: string, name: string)
      reads this
    {
      kind in permissions && name in permissions[kind]
    }

    /** The index stands for this list of entries. */
    ghost predicate Indexes(entities: seq<Entity>)
      reads this, Entries()
    {
      && TYPE_USER in permissions && TYPE_GROUP in permissions
      && (forall k, n :: Knows(k, n) <==> Has(entities, k, n))
      && forall k, n | Knows(k, n) :: permissions[k][n].AsEntity() == Entity(k, n, Merged(entities, k, n))
    }

    /** The first `i` of `list` are in the index, which stands for the first `i` of what `list` said at first. */
    ghost predicate Reading(list: seq<EntityPermissions>, entities: seq<Entity>, i: nat)
      reads this, Entries(), list
    {
      && i <= |list| && Describes(list, entities) && Indexes(entities[..i])
      && (forall p <- Entries() :: p in list[..i])
      && Unchanged(list, entities)
    }

    /** What is not in the index yet still says what it said at first. */
    ghost predicate Unchanged(list: seq<EntityPermissions>, entities: seq<Entity>)
      requires |list| == |entities|
      reads this, list
    {
      forall j | 0 <= j < |list| && list[j] !in Entries() :: list[j].AsEntity() == entities[j]
    }

    lemma ReadingNone(list: seq<EntityPermissions>, entities: seq<Entity>)
      requires permissions == map[TYPE_USER := map[], TYPE_GROUP := map[]]
      requires Describes(list, entities) && forall j | 0 <= j < |list| :: list[j].AsEntity() == entities[j]
      ensures Reading(list, entities, 0)
    {
      assert Entries() == {} && entities[..0] == [];
    }

    constructor (list: seq<EntityPermissions>)
      modifies list
      ensures Indexes(old(AsEntities(list)))
      ensures forall p <- Entries() :: p in list
    {
      permissions := map[TYPE_USER := map[], TYPE_GROUP := map[]];
      new;
      ghost var entities := old(AsEntities(list));
      ReadingNone(list, entities);
      for i := 0 to |list|
        invariant Reading(list, entities, i)
      {
        Add(list, i, entities);
      }
      assert entities[..|list|] == entities && list[..|list|] == list;
    }

    /** `EntityPermissions#allows?` of the entry for a user or group, if there is one. */
    predicate EntryAllows(kind: string, name: string, action: string)
      reads this, Entries()
    {
      && Knows(kind, name)
      && (assert permissions[kind][name] in Entries(); EntityAllows(permissions[kind][name].allowList, action))
    }

    method Allows(username: string, groups: seq<string>, action: string, ghost entities: seq<Entity>)
      returns (granted: bool)
      requires Indexes(entities)
      ensures granted <==> HasAccess(entities, username, groups, action)
    {
      IndexRefinesScan(entities, username, groups, action);
      ScanMeans(entities, username, groups, action);
      EntriesAllow(entities, action);
      if SUPERUSER == username {
        return true;
      }
      if EntryAllows(TYPE_USER, username, action) {
        return true;
      }
      for i := 0 to |groups|
        invariant forall j | 0 <= j < i :: !EntityAllows(Merged(entities, TYPE_GROUP, groups[j]), action)
      {
        if EntryAllows(TYPE_GROUP, groups[i], action) {
          assert groups[i] in groups;
          return true;
        }
      }
      granted := false;
    }

    lemma EntriesAllow(entities: seq<Entity>, action: string)
      requires Indexes(entities)
      ensures forall k, n :: EntryAllows(k, n, action) <==> EntityAllows(Merged(entities, k, n), action)
    {
      forall k, n ensures EntryAllows(k, n, action) <==> EntityAllows(Merged(entities, k, n), action) {
        MergedGrants(entities, k, n, action);
      }
    }

    /** The entries of the index, in whatever order the hashes list them. */
    method EntityPermissionsList(ghost entities: seq<Entity>) returns (keys: seq<(string, string)>)
      requires Indexes(entities)
      ensures NoRepeats(keys) && forall k, n :: (k, n) in keys <==> Has(entities, k, n)
    {
      keys := [];
      var kinds := permissions.Keys;
      while kinds != {}
        invariant kinds <= permissions.Keys && NoRepeats(keys)
        invariant forall k, n :: (k, n) in keys <==> Knows(k, n) && k !in kinds
      {
        var k :| k in kinds;
        kinds := kinds - {k};
        var names := permissions[k].Keys;
        while names != {}
          invariant names <= permissions[k].Keys && NoRepeats(keys)
          invariant forall l, n :: (l, n) in keys <==> Knows(l, n) && l !in kinds && (l == k ==> n !in names)
        {
          var n :| n in names;
          names := names - {n};
          keys := keys + [(k, n)];
        }
      }
    }

    method ToHashList(ghost entities: seq<Entity>) returns (hash: seq<Entity>)
      requires Indexes(entities)
      ensures hash == ToHash(entities)
    {
      var keys := EntityPermissionsList(entities);
      var unsorted: seq<Entity> := [];
      for i := 0 to |keys|
        invariant unsorted == HashEntities(entities, keys[..i])
      {
        var (k, n) := keys[i];
        assert keys[i] in keys && Knows(k, n) && permissions[k][n] in Entries();
        assert permissions[k][n].AsEntity() == Entity(k, n, Merged(entities, k, n));
        unsorted := unsorted + [Entity(k, n, UniqSort(permissions[k][n].allowList))];
        assert keys[..i + 1][i] == (k, n) && keys[..i + 1][..i] == keys[..i];
      }
      assert keys[..|keys|] == keys;
      HashInAnyOrder(entities, keys);
      hash := Sort(unsorted, EntityLess);
    }

    /** One turn of the constructor's loop. */
    method Add(list: seq<EntityPermissions>, i: nat, ghost entities: seq<Entity>)
      requires i < |list| && Reading(list, entities, i)
      modifies this, list
      ensures Reading(list, entities, i + 1)
    {
      AddKind(list[i].kind, list, entities, i);
      if list[i].name in permissions[list[i].kind] {
        MergeNext(list, i, entities);
      } else {
        AddNext(list, i, entities);
      }
    }

    method MergeNext(list: seq<EntityPermissions>, i: nat, ghost entities: seq<Entity>)
      requires i < |list| && Reading(list, entities, i) && Knows(list[i].kind, list[i].name)
      modifies Entries()
      ensures Reading(list, entities, i + 1)
    {
      ghost var entry := permissions[list[i].kind][list[i].name];
      NextOfList(list, entities, i);
      MergedAllowList(list, i, entities);
      assert entry in Entries();
      MergeEntry(list[i], entities[..i], entities[i]);
      assert Unchanged(list, entities) by {
        assert forall j | 0 <= j < |list| && list[j] !in Entries() :: list[j] != entry;
      }
    }

    lemma NextOfList(list: seq<EntityPermissions>, entities: seq<Entity>, i: nat)
      requires i < |list| == |entities| && forall p <- Entries() :: p in list[..i]
      ensures entities[..i + 1] == entities[..i] + [entities[i]] && list[i] in list[..i + 1]
      ensures forall p <- Entries() :: p in list[..i + 1]
    {
      assert list[..i + 1] == list[..i] + [list[i]];
    }

    method AddNext(list: seq<EntityPermissions>, i: nat, ghost entities: seq<Entity>)
      requires i < |list| && Reading(list, entities, i)
      requires list[i].kind in permissions && !Knows(list[i].kind, list[i].name)
      modifies this
      ensures Reading(list, entities, i + 1)
    {
      NextOfList(list, entities, i);
      NotYetIndexed(list, i, entities);
      AddEntry(list[i], entities[..i], entities[i]);
    }

    method AddKind(kind: string, ghost list: seq<EntityPermissions>, ghost entities: seq<Entity>, ghost i: nat)
      requires Reading(list, entities, i)
      modifies this
      ensures Reading(list, entities, i) && kind in permissions && Entries() == old(Entries())
    {
      if kind !in permissions {
        EntriesOfNewKind(permissions, kind);
        permissions := permissions[kind := map[]];
      }
    }

    lemma NotYetIndexed(list: seq<EntityPermissions>, i: nat, entities: seq<Entity>)
      requires i < |list| && Reading(list, entities, i) && !Knows(list[i].kind, list[i].name)
      ensures list[i] !in Entries()
    {
      forall k, n | Knows(k, n) ensures permissions[k][n] != list[i] {
        assert permissions[k][n].AsEntity() == Entity(k, n, Merged(entities[..i], k, n));
      }
    }

    /** Merging an entry into itself is merging what it once listed. */
    lemma MergedAllowList(list: seq<EntityPermissions>, i: nat, entities: seq<Entity>)
      requires i < |list| && Reading(list, entities, i) && Knows(list[i].kind, list[i].name)
      ensures var perm := list[i];
        Uniq(permissions[perm.kind][perm.name].allowList + perm.allowList)
        == Uniq(Merged(entities[..i], perm.kind, perm.name) + entities[i].allow)
    {
      var perm, before := list[i], entities[..i];
      var merged := Merged(before, perm.kind, perm.name);
      if perm in Entries() {
        var k, n :| Knows(k, n) && permissions[k][n] == perm;
        assert permissions[k][n].AsEntity() == Entity(k, n, Merged(before, k, n));
        var j :| 0 <= j < i && list[j] == perm;
        assert before[j] == entities[i];
        forall p <- entities[i].allow ensures p in merged {
          MergedGrants(before, perm.kind, perm.name, p);
        }
        UniqAbsorbs(merged, merged);
        UniqAbsorbs(merged, entities[i].allow);
      }
    }

    method MergeEntry(perm: EntityPermissions, ghost before: seq<Entity>, ghost last: Entity)
      requires Indexes(before) && Knows(perm.kind, perm.name) && For(last, perm.kind, perm.name)
      requires Uniq(permissions[perm.kind][perm.name].allowList + perm.allowList)
            == Uniq(Merged(before, perm.kind, perm.name) + last.allow)
      modifies permissions[perm.kind][perm.name]
      ensures Indexes(before + [last])
    {
      MergedAgain(before, last);
      permissions[perm.kind][perm.name].Merge(perm);
    }

    method AddEntry(perm: EntityPermissions, ghost before: seq<Entity>, ghost last: Entity)
      requires Indexes(before) && perm.kind in permissions && perm.name !in permissions[perm.kind]
      requires perm.AsEntity() == last
      modifies this
      ensures Indexes(before + [last]) && Entries() == old(Entries()) + {perm}
    {
      MergedFirst(before, last);
      EntriesOfMore(permissions, perm.kind, perm.name, perm);
      OneMoreEntry(permissions, perm.kind, perm.name, perm);
      permissions := permissions[perm.kind := permissions[perm.kind][perm.name := perm]];
    }
  }
}
