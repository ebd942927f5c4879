/**
 * The plugin's entry points in extension.js: `handleFile`, which validates the ACLs,
 * assigns each one to the resource it guards and replaces those resources in the
 * registry, and the `allowRead` / `allowCreate` hooks of the replacing classes.
 *
 * Host calls become data: the resource registry is a map from path to entry, the
 * tables that `ensureTable` is asked for are returned in call order, and what the
 * base class's own `allowRead` / `allowCreate` would answer is a parameter.
 */
module Extension {
  import opened Options
  import opened Strings
  import opened Matcher
  import opened Resolver

  /** The class a guard extends: the registry's existing resource, or a table. */
  datatype Base = Existing(entry: RegistryEntry) | Table(name: string, database: string)

  /** What `applyPermissions(path, { resource, acls })` builds. */
  datatype Guard = Guard(base: Base, levels: seq<string>, acls: seq<AclEntry>)

  /** A registry value: a host entry (with or without a `Resource`), or a guard of ours. */
  datatype RegistryEntry = Host(exportsResource: bool) | Guarded(guard: Guard)

  /** One `ensureTable({ table, database, attributes: [] })` call. */
  datatype TableRequest = TableRequest(table: string, database: string)

  /** One entry of the `resources_to_permission` map. */
  datatype Pending = Pending(resource: Base, acls: seq<AclEntry>)

  datatype Outcome = Done | ConfigError(message: string)

  const TopicFilterError := "ACL must have a topicFilter (as a string)"

  /** The host's resource registry, which `handleFile` reads and then updates in place. */
  class Registry {
    var entries: map<string, RegistryEntry>

    constructor (initial: map<string, RegistryEntry>)
      ensures entries == initial
    {
      entries := initial;
    }

    /** `resources.set(path, entry)`. */
    method Set(path: string, entry: RegistryEntry)
      modifies this
      ensures entries == old(entries)[path := entry]
    {
      entries := entries[path := entry];
    }
  }

  /** `resources.get(path)?.Resource` is truthy. A guard of ours counts as a resource. */
  predicate Registered(entries: map<string, RegistryEntry>, path: string)
  {
    path in entries && (entries[path].Host? ==> entries[path].exportsResource)
  }

  /** `database || 'data'`. */
  function DatabaseName(database: Option<string>): (name: string)
    ensures name != ""
    ensures name == "data" || database == Some(name)
    ensures database.Some? && database.value != "" ==> name == database.value
  {
    if database.Some? && database.value != "" then database.value else "data"
  }

  /** The prefix search from `i` levels down to one level; the first level when none is registered. */
  function ResourcePathFrom(levels: seq<string>, entries: map<string, RegistryEntry>, i: nat): string
    requires 1 <= |levels| && i <= |levels|
  {
    if i == 0 then levels[0]
    else if Registered(entries, Join(levels[..i], '/')) then Join(levels[..i], '/')
    else ResourcePathFrom(levels, entries, i - 1)
  }

  /** The resource path chosen for a filter's levels. */
  function ResourcePath(levels: seq<string>, entries: map<string, RegistryEntry>): string
    requires 1 <= |levels|
  {
    ResourcePathFrom(levels, entries, |levels|)
  }

  /** The prefix search of handleFile, a decrementing loop left by `break`. */
  method FindResourcePath(levels: seq<string>, entries: map<string, RegistryEntry>)
    returns (resourcePath: string, found: bool)
    requires 1 <= |levels|
    ensures resourcePath == ResourcePath(levels, entries)
    ensures found == Registered(entries, resourcePath)
    ensures !found ==>
      resourcePath == levels[0] &&
      forall j :: 1 <= j <= |levels| ==> !Registered(entries, Join(levels[..j], '/'))
  {
    found := false;
    resourcePath := "";
    var i := |levels|;
    while i >= 1
      invariant 0 <= i <= |levels|
      invariant ResourcePathFrom(levels, entries, i) == ResourcePath(levels, entries)
      invariant forall j :: i < j <= |levels| ==> !Registered(entries, Join(levels[..j], '/'))
      invariant i < |levels| ==> resourcePath == Join(levels[..i + 1], '/')
    {
      resourcePath := Join(levels[..i], '/');
      found := Registered(entries, resourcePath);
      if found {
        break;
      }
      i := i - 1;
    }
    if !found {
      assert Join(levels[..1], '/') == levels[0];
      resourcePath := levels[0];
    }
  }

  /** The guard's base for a chosen path: the registered resource, else the ensured table. */
  function BaseFor(entries: map<string, RegistryEntry>, path: string, database: string): Base
  {
    if Registered(entries, path) then Existing(entries[path]) else Table(path, database)
  }

  predicate AllFiltersStrings(acls: seq<AclEntry>)
  {
    forall i :: 0 <= i < |acls| ==> acls[i].topicFilter.Some?
  }

  /** The resource path an ACL is assigned to. */
  function ChosenPath(acl: AclEntry, entries: map<string, RegistryEntry>): string
    requires acl.topicFilter.Some?
  {
    ResourcePath(Split(acl.topicFilter.value, '/'), entries)
  }

  /** The distinct chosen paths, in order of first appearance (the Map's key order). */
  function PathOrder(acls: seq<AclEntry>, entries: map<string, RegistryEntry>): seq<string>
    requires AllFiltersStrings(acls)
  {
    if |acls| == 0 then []
    else
      var earlier := PathOrder(acls[..|acls| - 1], entries);
      var path := ChosenPath(acls[|acls| - 1], entries);
      if path in earlier then earlier else earlier + [path]
  }

  /** The ACLs assigned to `path`, in input order. */
  function Group(acls: seq<AclEntry>, entries: map<string, RegistryEntry>, path: string): seq<AclEntry>
    requires AllFiltersStrings(acls)
  {
    if |acls| == 0 then []
    else
      var last := acls[|acls| - 1];
      Group(acls[..|acls| - 1], entries, path) + if ChosenPath(last, entries) == path then [last] else []
  }

  /** The `ensureTable` calls, one per ACL for which no prefix is registered. */
  function EnsuredTables(acls: seq<AclEntry>, entries: map<string, RegistryEntry>, database: string)
    : seq<TableRequest>
    requires AllFiltersStrings(acls)
  {
    if |acls| == 0 then []
    else
      var path := ChosenPath(acls[|acls| - 1], entries);
      EnsuredTables(acls[..|acls| - 1], entries, database)
        + if Registered(entries, path) then [] else [TableRequest(path, database)]
  }

  /** The registry entry handleFile writes for a chosen path. */
  function GuardFor(acls: seq<AclEntry>, entries: map<string, RegistryEntry>, database: string, path: string)
    : RegistryEntry
    requires AllFiltersStrings(acls)
  {
    Guarded(Guard(BaseFor(entries, path, database), Split(path, '/'), Group(acls, entries, path)))
  }

  /** Every registry entry handleFile writes. */
  function Guards(acls: seq<AclEntry>, entries: map<string, RegistryEntry>, database: string)
    : map<string, RegistryEntry>
    requires AllFiltersStrings(acls)
  {
    map path | path in PathOrder(acls, entries) :: GuardFor(acls, entries, database, path)
  }

  /** A path has a non-empty group exactly when it is among the chosen paths. */
  lemma {:induction false} GroupNonEmptyIff(acls: seq<AclEntry>, entries: map<string, RegistryEntry>, path: string)
    requires AllFiltersStrings(acls)
    ensures |Group(acls, entries, path)| > 0 <==> path in PathOrder(acls, entries)
  {
    if |acls| > 0 {
      GroupNonEmptyIff(acls[..|acls| - 1], entries, path);
    }
  }

  /** The path order and the table calls grow by one ACL exactly as handleFile's loop body does. */
  lemma GroupingStep(acls: seq<AclEntry>, k: nat, entries: map<string, RegistryEntry>, database: string)
    requires k < |acls| && AllFiltersStrings(acls[..k + 1])
    ensures AllFiltersStrings(acls[..k])
    ensures var path := ChosenPath(acls[k], entries);
      && PathOrder(acls[..k + 1], entries)
         == (if path in PathOrder(acls[..k], entries) then PathOrder(acls[..k], entries)
             else PathOrder(acls[..k], entries) + [path])
      && EnsuredTables(acls[..k + 1], entries, database)
         == EnsuredTables(acls[..k], entries, database)
            + if Registered(entries, path) then [] else [TableRequest(path, database)]
  {
    assert acls[..k + 1][..k] == acls[..k];
    assert acls[..k + 1][k] == acls[k];
  }

  /** The groups grow by one ACL exactly as handleFile's loop body does. */
  lemma GroupStep(acls: seq<AclEntry>, k: nat, entries: map<string, RegistryEntry>, p: string)
    requires k < |acls| && AllFiltersStrings(acls[..k + 1])
    ensures AllFiltersStrings(acls[..k])
    ensures Group(acls[..k + 1], entries, p)
         == Group(acls[..k], entries, p) + if ChosenPath(acls[k], entries) == p then [acls[k]] else []
  {
    assert acls[..k + 1][..k] == acls[..k];
    assert acls[..k + 1][k] == acls[k];
  }

  /** One ACL appended to its path's pending group keeps every group equal to `Group`. */
  lemma PendingStep(acls: seq<AclEntry>, k: nat, entries: map<string, RegistryEntry>, db: string,
                    before: map<string, Pending>, withGroup: map<string, Pending>, after: map<string, Pending>,
                    path: string)
    requires k < |acls| && AllFiltersStrings(acls[..k + 1])
    requires path == ChosenPath(acls[k], entries)
    requires forall p :: p in before <==> p in PathOrder(acls[..k], entries)
    requires forall p :: p in before ==>
      before[p] == Pending(BaseFor(entries, p, db), Group(acls[..k], entries, p))
    requires withGroup == if path in before then before else before[path := Pending(BaseFor(entries, path, db), [])]
    requires after == withGroup[path := withGroup[path].(acls := withGroup[path].acls + [acls[k]])]
    ensures forall p :: p in after ==>
      after[p] == Pending(BaseFor(entries, p, db), Group(acls[..k + 1], entries, p))
  {
    forall p | p in after
      ensures after[p] == Pending(BaseFor(entries, p, db), Group(acls[..k + 1], entries, p))
    {
      GroupStep(acls, k, entries, p);
      if p != path {
        assert after[p] == before[p];
      } else if p !in before {
        GroupNonEmptyIff(acls[..k], entries, p);
      }
    }
  }

  /**
   * The first loop of handleFile: each ACL in turn is checked for a string filter (the
   * first that lacks one throws), assigned to its resource path, and appended to that
   * path's group, creating the group (and fixing its base) on first use.
   */
  method GroupAcls(acls: seq<AclEntry>, entries: map<string, RegistryEntry>, db: string)
    returns (outcome: Outcome, order: seq<string>, pending: map<string, Pending>, ensured: seq<TableRequest>)
    ensures outcome.ConfigError? <==> !AllFiltersStrings(acls)
    ensures outcome.ConfigError? ==>
      outcome.message == TopicFilterError &&
      exists bad :: 0 <= bad < |acls| && acls[bad].topicFilter.None? && AllFiltersStrings(acls[..bad]) &&
        ensured == EnsuredTables(acls[..bad], entries, db)
    ensures outcome.Done? ==>
      && order == PathOrder(acls, entries)
      && (forall p :: p in pending <==> p in order)
      && (forall p :: p in pending ==> pending[p] == Pending(BaseFor(entries, p, db), Group(acls, entries, p)))
      && ensured == EnsuredTables(acls, entries, db)
  {
    order := [];
    pending := map[];
    ensured := [];
    var k := 0;
    while k < |acls|
      invariant 0 <= k <= |acls|
      invariant AllFiltersStrings(acls[..k])
      invariant order == PathOrder(acls[..k], entries)
      invariant forall p :: p in pending <==> p in order
      invariant forall p :: p in pending ==>
        pending[p] == Pending(BaseFor(entries, p, db), Group(acls[..k], entries, p))
      invariant ensured == EnsuredTables(acls[..k], entries, db)
    {
      var acl := acls[k];
      if acl.topicFilter.None? {
        return ConfigError(TopicFilterError), order, pending, ensured;
      }
      assert AllFiltersStrings(acls[..k + 1]) by {
        assert forall i :: 0 <= i < k ==> acls[..k + 1][i] == acls[..k][i];
      }
      GroupingStep(acls, k, entries, db);
      var path := Split(acl.topicFilter.value, '/');
      var resourcePath, found := FindResourcePath(path, entries);
      var resource;
      ghost var tablesBefore := ensured;
      if found {
        resource := Existing(entries[resourcePath]);
      } else {
        resourcePath := path[0];
        ensured := ensured + [TableRequest(resourcePath, db)];
        resource := Table(resourcePath, db);
      }
      assert resourcePath == ChosenPath(acl, entries);
      assert ensured == tablesBefore
        + if Registered(entries, resourcePath) then [] else [TableRequest(resourcePath, db)];
      assert resource == BaseFor(entries, resourcePath, db);
      ghost var before := pending;
      if resourcePath !in pending {
        order := order + [resourcePath];
        pending := pending[resourcePath := Pending(resource, [])];
      }
      ghost var withGroup := pending;
      pending := pending[resourcePath := pending[resourcePath].(acls := pending[resourcePath].acls + [acl])];
      PendingStep(acls, k, entries, db, before, withGroup, pending, resourcePath);
      k := k + 1;
    }
    assert acls[..k] == acls;
    outcome := Done;
  }

  /** The registry entry handleFile writes for one group. */
  function InstallEntry(path: string, group: Pending): RegistryEntry
  {
    Guarded(Guard(group.resource, Split(path, '/'), group.acls))
  }

  /** The registry entries written for the given paths. */
  function Installed(paths: seq<string>, pending: map<string, Pending>): map<string, RegistryEntry>
    requires forall p :: p in paths ==> p in pending
  {
    map p | p in paths :: InstallEntry(p, pending[p])
  }

  /** Installing one more group extends the registry by that group's entry. */
  lemma InstallStep(base: map<string, RegistryEntry>, done: seq<string>, p: string, pending: map<string, Pending>)
    requires forall q :: q in done + [p] ==> q in pending
    ensures (base + Installed(done, pending))[p := InstallEntry(p, pending[p])]
         == base + Installed(done + [p], pending)
  {
    var before := Installed(done, pending);
    var entry := InstallEntry(p, pending[p]);
    assert Installed(done + [p], pending) == before[p := entry];
  }

  /** The second loop of handleFile: each group replaces its path's registry entry. */
  method ApplyGroups(order: seq<string>, pending: map<string, Pending>, resources: Registry)
    requires forall p :: p in order ==> p in pending
    modifies resources
    ensures resources.entries == old(resources.entries) + Installed(order, pending)
  {
    var j := 0;
    while j < |order|
      invariant 0 <= j <= |order|
      invariant resources.entries == old(resources.entries) + Installed(order[..j], pending)
    {
      var p := order[j];
      assert order[..j + 1] == order[..j] + [p];
      InstallStep(old(resources.entries), order[..j], p, pending);
      resources.Set(p, InstallEntry(p, pending[p]));
      j := j + 1;
    }
    assert order[..j] == order;
  }

  /**
   * handleFile after parsing: group the ACLs, and only when every filter is a string
   * replace the grouped resources in the registry; otherwise the registry is untouched.
   */
  method HandleFile(acls: seq<AclEntry>, database: Option<string>, resources: Registry)
    returns (outcome: Outcome, ensured: seq<TableRequest>)
    modifies resources
    ensures outcome.ConfigError? <==> !AllFiltersStrings(acls)
    ensures outcome.ConfigError? ==>
      outcome.message == TopicFilterError &&
      resources.entries == old(resources.entries) &&
      exists bad :: 0 <= bad < |acls| && acls[bad].topicFilter.None? && AllFiltersStrings(acls[..bad]) &&
        ensured == EnsuredTables(acls[..bad], old(resources.entries), DatabaseName(database))
    ensures outcome.Done? ==>
      resources.entries == old(resources.entries) + Guards(acls, old(resources.entries), DatabaseName(database)) &&
      ensured == EnsuredTables(acls, old(resources.entries), DatabaseName(database))
  {
    var db := DatabaseName(database);
    var initial := resources.entries;
    var order, pending;
    outcome, order, pending, ensured := GroupAcls(acls, initial, db);
    if outcome.ConfigError? {
      return;
    }
    ApplyGroups(order, pending, resources);
    ghost var written := map p | p in order :: Guarded(Guard(pending[p].resource, Split(p, '/'), pending[p].acls));
    assert written == Guards(acls, initial, db);
  }

  /*
   * Properties of the grouping.
   */

  lemma {:induction false} ResourcePathFromSpec(levels: seq<string>, entries: map<string, RegistryEntry>, i: nat)
    requires 1 <= |levels| && i <= |levels|
    ensures var r := ResourcePathFrom(levels, entries, i);
      || (exists k :: 1 <= k <= i && r == Join(levels[..k], '/') && Registered(entries, r) &&
            forall j :: k < j <= i ==> !Registered(entries, Join(levels[..j], '/')))
      || (r == levels[0] && forall j :: 1 <= j <= i ==> !Registered(entries, Join(levels[..j], '/')))
  {
    var r := ResourcePathFrom(levels, entries, i);
    if i == 0 {
      assert r == levels[0];
    } else if Registered(entries, Join(levels[..i], '/')) {
      assert r == Join(levels[..i], '/');
    } else {
      ResourcePathFromSpec(levels, entries, i - 1);
      assert r == ResourcePathFrom(levels, entries, i - 1);
      if r == levels[0] && forall j :: 1 <= j <= i - 1 ==> !Registered(entries, Join(levels[..j], '/')) {
      } else {
        var k :| 1 <= k <= i - 1 && r == Join(levels[..k], '/') && Registered(entries, r) &&
          forall j :: k < j <= i - 1 ==> !Registered(entries, Join(levels[..j], '/'));
        assert forall j :: k < j <= i ==> !Registered(entries, Join(levels[..j], '/'));
      }
    }
  }

  /**
   * The chosen resource path is the longest registered prefix of the filter's levels
   * (from all of them down to one, never none), or the first level when none is registered.
   */
  lemma ResourcePathLongest(levels: seq<string>, entries: map<string, RegistryEntry>)
    requires 1 <= |levels|
    ensures var r := ResourcePath(levels, entries);
      || (exists k :: 1 <= k <= |levels| && r == Join(levels[..k], '/') && Registered(entries, r) &&
            forall j :: k < j <= |levels| ==> !Registered(entries, Join(levels[..j], '/')))
      || (r == levels[0] && forall j :: 1 <= j <= |levels| ==> !Registered(entries, Join(levels[..j], '/')))
  {
    ResourcePathFromSpec(levels, entries, |levels|);
  }

  /** Split again, the chosen path gives back a non-empty prefix of the filter's levels. */
  lemma ResourcePathIsPrefix(levels: seq<string>, entries: map<string, RegistryEntry>)
    requires 1 <= |levels| && forall i :: 0 <= i < |levels| ==> '/' !in levels[i]
    ensures var pathLevels := Split(ResourcePath(levels, entries), '/');
      1 <= |pathLevels| <= |levels| && pathLevels == levels[..|pathLevels|]
  {
    ResourcePathLongest(levels, entries);
    var r := ResourcePath(levels, entries);
    if exists k :: 1 <= k <= |levels| && r == Join(levels[..k], '/') && Registered(entries, r) &&
         forall j :: k < j <= |levels| ==> !Registered(entries, Join(levels[..j], '/')) {
      var k :| 1 <= k <= |levels| && r == Join(levels[..k], '/') && Registered(entries, r) &&
        forall j :: k < j <= |levels| ==> !Registered(entries, Join(levels[..j], '/'));
      SplitJoin(levels[..k], '/');
    } else {
      assert Join(levels[..1], '/') == levels[0];
      SplitJoin(levels[..1], '/');
    }
  }

  predicate Distinct(s: seq<string>)
  {
    forall a, b :: 0 <= a < b < |s| ==> s[a] != s[b]
  }

  /** The groups' keys are distinct and are exactly the paths chosen for the ACLs. */
  lemma {:induction false} PathOrderSpec(acls: seq<AclEntry>, entries: map<string, RegistryEntry>)
    requires AllFiltersStrings(acls)
    ensures Distinct(PathOrder(acls, entries))
    ensures forall p :: p in PathOrder(acls, entries) <==>
      exists i :: 0 <= i < |acls| && ChosenPath(acls[i], entries) == p
  {
    if |acls| > 0 {
      var n := |acls| - 1;
      var earlier := acls[..n];
      PathOrderSpec(earlier, entries);
      assert forall i :: 0 <= i < n ==> earlier[i] == acls[i];
      forall p | exists i :: 0 <= i < |acls| && ChosenPath(acls[i], entries) == p
        ensures p in PathOrder(acls, entries)
      {
        var i :| 0 <= i < |acls| && ChosenPath(acls[i], entries) == p;
        if i < n {
          assert ChosenPath(earlier[i], entries) == p;
        }
      }
    }
  }

  /** Grouping a concatenation concatenates the groups: input order is kept within a group. */
  lemma {:induction false} GroupConcat(a: seq<AclEntry>, b: seq<AclEntry>, entries: map<string, RegistryEntry>, path: string)
    requires AllFiltersStrings(a) && AllFiltersStrings(b)
    ensures AllFiltersStrings(a + b)
    ensures Group(a + b, entries, path) == Group(a, entries, path) + Group(b, entries, path)
  {
    assert forall i :: 0 <= i < |a + b| ==> (a + b)[i] == if i < |a| then a[i] else b[i - |a|];
    if |b| == 0 {
      assert a + b == a;
    } else {
      var n := |b| - 1;
      assert (a + b)[..|a + b| - 1] == a + b[..n];
      assert AllFiltersStrings(b[..n]);
      GroupConcat(a, b[..n], entries, path);
    }
  }

  /** Every ACL in a group was given, and was assigned that group's path. */
  lemma {:induction false} GroupMembers(acls: seq<AclEntry>, entries: map<string, RegistryEntry>, path: string)
    requires AllFiltersStrings(acls)
    ensures forall x :: x in Group(acls, entries, path) ==>
      x in acls && x.topicFilter.Some? && ChosenPath(x, entries) == path
  {
    if |acls| > 0 {
      var n := |acls| - 1;
      GroupMembers(acls[..n], entries, path);
      assert forall x :: x in acls[..n] ==> x in acls;
    }
  }

  function GroupSizes(order: seq<string>, acls: seq<AclEntry>, entries: map<string, RegistryEntry>): nat
    requires AllFiltersStrings(acls)
  {
    if |order| == 0 then 0
    else |Group(acls, entries, order[0])| + GroupSizes(order[1..], acls, entries)
  }

  function Occurrences(order: seq<string>, path: string): nat
  {
    if |order| == 0 then 0
    else (if order[0] == path then 1 else 0) + Occurrences(order[1..], path)
  }

  lemma {:induction false} OccurrencesDistinct(order: seq<string>, path: string)
    requires Distinct(order)
    ensures Occurrences(order, path) == if path in order then 1 else 0
  {
    if |order| > 0 {
      assert Distinct(order[1..]);
      OccurrencesDistinct(order[1..], path);
      if order[0] == path {
        assert path !in order[1..];
      }
    }
  }

  lemma {:induction false} GroupSizesSnoc(order: seq<string>, acls: seq<AclEntry>, last: AclEntry,
                                          entries: map<string, RegistryEntry>)
    requires AllFiltersStrings(acls) && last.topicFilter.Some?
    ensures AllFiltersStrings(acls + [last])
    ensures GroupSizes(order, acls + [last], entries)
         == GroupSizes(order, acls, entries) + Occurrences(order, ChosenPath(last, entries))
  {
    assert (acls + [last])[..|acls|] == acls;
    assert (acls + [last])[|acls|] == last;
    assert forall i :: 0 <= i < |acls| ==> (acls + [last])[i] == acls[i];
    if |order| > 0 {
      GroupSizesSnoc(order[1..], acls, last, entries);
    }
  }

  lemma {:induction false} GroupSizesAppend(order: seq<string>, path: string, acls: seq<AclEntry>,
                                            entries: map<string, RegistryEntry>)
    requires AllFiltersStrings(acls)
    ensures GroupSizes(order + [path], acls, entries) == GroupSizes(order, acls, entries) + |Group(acls, entries, path)|
  {
    if |order| > 0 {
      assert (order + [path])[1..] == order[1..] + [path];
      GroupSizesAppend(order[1..], path, acls, entries);
    } else {
      assert (order + [path])[1..] == [];
    }
  }

  /** Every ACL lands in exactly one group: the group sizes sum to the number of ACLs. */
  lemma {:induction false} GroupsPartition(acls: seq<AclEntry>, entries: map<string, RegistryEntry>)
    requires AllFiltersStrings(acls)
    ensures GroupSizes(PathOrder(acls, entries), acls, entries) == |acls|
  {
    if |acls| > 0 {
      var n := |acls| - 1;
      var earlier := acls[..n];
      var last := acls[n];
      assert earlier + [last] == acls;
      assert AllFiltersStrings(earlier);
      var order := PathOrder(earlier, entries);
      var path := ChosenPath(last, entries);
      GroupSizesSnoc(order, earlier, last, entries);
      GroupsPartition(earlier, entries);
      PathOrderSpec(earlier, entries);
      OccurrencesDistinct(order, path);
      if path !in order {
        GroupSizesAppend(order, path, acls, entries);
        GroupNonEmptyIff(earlier, entries, path);
        assert Group(acls, entries, path) == Group(earlier, entries, path) + [last];
      }
    }
  }

  /**
   * Every entry handleFile writes is a guard over a non-empty group of the given ACLs,
   * all with string filters, whose levels are the path split on `/` and a prefix of
   * each of its ACLs' filter levels.
   */
  lemma GuardsSound(acls: seq<AclEntry>, entries: map<string, RegistryEntry>, database: string, path: string)
    requires AllFiltersStrings(acls) && path in Guards(acls, entries, database)
    ensures var guard := Guards(acls, entries, database)[path].guard;
      && guard.levels == Split(path, '/')
      && guard.base == BaseFor(entries, path, database)
      && |guard.acls| > 0
      && AllFiltersStrings(guard.acls)
      && forall i :: 0 <= i < |guard.acls| ==>
           guard.acls[i] in acls &&
           var filterLevels := Split(guard.acls[i].topicFilter.value, '/');
           |guard.levels| <= |filterLevels| && guard.levels == filterLevels[..|guard.levels|]
  {
    var group := Group(acls, entries, path);
    GroupNonEmptyIff(acls, entries, path);
    GroupMembers(acls, entries, path);
    forall i | 0 <= i < |group|
      ensures var filterLevels := Split(group[i].topicFilter.value, '/');
        |Split(path, '/')| <= |filterLevels| && Split(path, '/') == filterLevels[..|Split(path, '/')|]
    {
      assert group[i] in group;
      ResourcePathIsPrefix(Split(group[i].topicFilter.value, '/'), entries);
    }
  }

  /*
   * The permission hooks of the class that applyPermissions builds.
   */

  /** Once some prefix of the levels is registered, the prefix search ends on a registered path. */
  lemma {:induction false} ResourcePathFromRegistered(levels: seq<string>, entries: map<string, RegistryEntry>,
                                                     i: nat, k: nat)
    requires 1 <= k <= i <= |levels| && Registered(entries, Join(levels[..k], '/'))
    ensures Registered(entries, ResourcePathFrom(levels, entries, i))
    decreases i
  {
    if i > k && !Registered(entries, Join(levels[..i], '/')) {
      ResourcePathFromRegistered(levels, entries, i - 1, k);
    }
  }

  /**
   * Loading the same ACLs again, against the registry the first load left, asks for no
   * table: every ACL's first chosen path now holds a guard, so each prefix search ends
   * on a registered path.
   */
  lemma ReloadEnsuresNoTables(acls: seq<AclEntry>, entries: map<string, RegistryEntry>, database: string)
    requires AllFiltersStrings(acls)
    ensures EnsuredTables(acls, entries + Guards(acls, entries, database), database) == []
  {
    ReloadPrefix(acls, entries, database, |acls|);
    assert acls[..|acls|] == acls;
  }

  lemma {:induction false} ReloadPrefix(acls: seq<AclEntry>, entries: map<string, RegistryEntry>, database: string,
                                        n: nat)
    requires AllFiltersStrings(acls) && n <= |acls|
    ensures AllFiltersStrings(acls[..n])
    ensures EnsuredTables(acls[..n], entries + Guards(acls, entries, database), database) == []
  {
    var reloaded := entries + Guards(acls, entries, database);
    if n > 0 {
      ReloadPrefix(acls, entries, database, n - 1);
      assert acls[..n][..n - 1] == acls[..n - 1];
      var acl := acls[n - 1];
      assert acls[..n][n - 1] == acl;
      var levels := Split(acl.topicFilter.value, '/');
      var first := ChosenPath(acl, entries);
      PathOrderSpec(acls, entries);
      assert first in Guards(acls, entries, database);
      assert Registered(reloaded, first);
      ResourcePathLongest(levels, entries);
      if first == levels[0] {
        assert Join(levels[..1], '/') == levels[0];
        ResourcePathFromRegistered(levels, reloaded, |levels|, 1);
      } else {
        var k :| 1 <= k <= |levels| && first == Join(levels[..k], '/');
        ResourcePathFromRegistered(levels, reloaded, |levels|, k);
      }
      assert Registered(reloaded, ChosenPath(acl, reloaded));
    }
  }

  /** `this.getId()`: an array, a falsy value, or any other (truthy) value. */
  datatype RecordId = IdArray(items: seq<string>) | IdText(text: string) | IdMissing

  /** The id as levels: an array is kept, a falsy id becomes `[]`, any other becomes `[id]`. */
  function IdLevels(id: RecordId): seq<string>
  {
    match id
    case IdArray(items) => items
    case IdText(text) => if text == "" then [] else [text]
    case IdMissing => []
  }

  /**
   * allowRead: the context topic, split on `/`, against the subscribe patterns resolved
   * for the user and session; otherwise what the base class answers.
   */
  method AllowRead(guard: Guard, user: User, topic: string, sessionId: Option<string>, inherited: bool)
    returns (allowed: bool)
    requires ResolvableAll(guard.acls, user, false)
    ensures allowed == (Permitted(Split(topic, '/'), Some(FindTopicsForUser(guard.acls, user, sessionId, false))) || inherited)
  {
    var id := Split(topic, '/');
    var allowedTopics := FindTopicsForUser(guard.acls, user, sessionId, false);
    var matched := MqttPermissionCheck(id, Some(allowedTopics));
    if matched {
      return true;
    }
    return inherited;
  }

  /**
   * allowCreate as written: the resource path's levels followed by the record id,
   * checked against the user's `mqtt_permissions.publishes`. The publish patterns it
   * resolves from the ACLs are computed and then not used.
   */
  method AllowCreate(guard: Guard, user: User, recordId: RecordId, sessionId: Option<string>, inherited: bool)
    returns (allowed: bool)
    requires ResolvableAll(guard.acls, user, true)
    ensures allowed == (Permitted(guard.levels + IdLevels(recordId), user.mqttPublishes) || inherited)
  {
    var id := guard.levels + IdLevels(recordId);
    var allowedTopics := FindTopicsForUser(guard.acls, user, sessionId, true);
    var matched := MqttPermissionCheck(id, user.mqttPublishes);
    if matched {
      return true;
    }
    return inherited;
  }

  /**
   * A publish pattern made of a guard's own levels and `#` admits exactly the created
   * records whose id adds a level: a non-empty array or a non-empty text id. A falsy id
   * leaves the bare path, which the `#` refuses.
   */
  lemma CreatedIdUnderPath(levels: seq<string>, id: RecordId)
    requires forall i :: 0 <= i < |levels| ==> levels[i] != "#"
    ensures PatternMatches(levels + IdLevels(id), levels + ["#"]) <==> IdLevels(id) != []
    ensures IdLevels(id) != [] <==> (id.IdArray? && id.items != []) || (id.IdText? && id.text != "")
  {
    var full := levels + IdLevels(id);
    var pattern := levels + ["#"];
    MultiLevelSuffix(full, pattern, |levels|);
    forall i | 0 <= i < |levels|
      ensures LevelMatches(pattern[i], full[i])
    {
      assert pattern[i] == levels[i] && full[i] == levels[i];
    }
  }

  /** allowCreate as evidently intended: the same id, checked against the resolved publish patterns. */
  method AllowCreateByAcl(guard: Guard, user: User, recordId: RecordId, sessionId: Option<string>, inherited: bool)
    returns (allowed: bool)
    requires ResolvableAll(guard.acls, user, true)
    ensures allowed == (Permitted(guard.levels + IdLevels(recordId), Some(FindTopicsForUser(guard.acls, user, sessionId, true))) || inherited)
  {
    var id := guard.levels + IdLevels(recordId);
    var allowedTopics := FindTopicsForUser(guard.acls, user, sessionId, true);
    var matched := MqttPermissionCheck(id, Some(allowedTopics));
    if matched {
      return true;
    }
    return inherited;
  }

  /**
   * The decision over resolved patterns, ACL by ACL: an id is admitted exactly when some
   * ACL that applies to the user in that direction has an expanded filter admitting it.
   */
  lemma ResolvedDecision(id: seq<string>, acls: seq<AclEntry>, user: User, sessionId: Option<string>, publish: bool)
    requires ResolvableAll(acls, user, publish)
    ensures Permitted(id, Some(FindTopicsForUser(acls, user, sessionId, publish))) <==>
      exists i :: 0 <= i < |acls| && Applies(acls[i], UserGroups(user), publish) &&
        PatternMatches(id, Expand(acls[i].topicFilter.value, user.username, sessionId))
  {
    var topics := FindTopicsForUser(acls, user, sessionId, publish);
    FindTopicsMembership(acls, user, sessionId, publish);
    if Permitted(id, Some(topics)) {
      var x :| 0 <= x < |topics| && PatternMatches(id, topics[x]);
      assert topics[x] in topics;
    }
    if exists i :: 0 <= i < |acls| && Applies(acls[i], UserGroups(user), publish) &&
         PatternMatches(id, Expand(acls[i].topicFilter.value, user.username, sessionId)) {
      var i :| 0 <= i < |acls| && Applies(acls[i], UserGroups(user), publish) &&
        PatternMatches(id, Expand(acls[i].topicFilter.value, user.username, sessionId));
      var t := Expand(acls[i].topicFilter.value, user.username, sessionId);
      assert t in topics;
      var x :| 0 <= x < |topics| && topics[x] == t;
    }
  }

  /**
   * As written, allowCreate can refuse a user whom the guard's own ACLs let publish:
   * a member of `writers` creating `sensors/t1` under an ACL `sensors/#` for `writers`,
   * whose user object carries no `mqtt_permissions`.
   */
  lemma CreateIgnoresPublishAcls(guard: Guard, user: User)
    requires guard == Guard(Table("sensors", "data"), ["sensors"],
                            [AclEntry(Some("sensors/#"), None, Some(["writers"]), false)])
    requires user == User(Some("ann"), List(["writers"]), Undefined, None)
    ensures ResolvableAll(guard.acls, user, true)
    ensures Permitted(guard.levels + IdLevels(IdText("t1")), Some(FindTopicsForUser(guard.acls, user, None, true)))
    ensures !Permitted(guard.levels + IdLevels(IdText("t1")), user.mqttPublishes)
  {
    var id := guard.levels + IdLevels(IdText("t1"));
    assert id == ["sensors", "t1"];
    SensorsTopics(guard.acls, user);
    var topics := FindTopicsForUser(guard.acls, user, None, true);
    var pattern := topics[0];
    assert pattern == ["sensors", "#"];
    MultiLevelSuffix(id, pattern, 1);
    assert LevelMatches(pattern[0], id[0]);
    assert PatternMatches(id, pattern);
  }

  lemma SensorsTopics(acls: seq<AclEntry>, user: User)
    requires acls == [AclEntry(Some("sensors/#"), None, Some(["writers"]), false)]
    requires user == User(Some("ann"), List(["writers"]), Undefined, None)
    ensures ResolvableAll(acls, user, true)
    ensures FindTopicsForUser(acls, user, None, true) == [["sensors", "#"]]
  {
    var acl := acls[0];
    assert "writers" in ["writers"];
    assert Applies(acl, UserGroups(user), true);
    SensorsExpansion(acl.topicFilter.value, user.username);
    assert FindTopicsForUser(acls, user, None, true)
        == Contribution(acl, user, None, true) + FindTopicsForUser(acls[1..], user, None, true);
  }

  lemma SensorsExpansion(topicFilter: string, username: Option<string>)
    requires topicFilter == "sensors/#" && username == Some("ann")
    ensures Expand(topicFilter, username, None) == ["sensors", "#"]
  {
    assert '/' !in Render(username) && '/' !in Render(None) by {
      assert Render(username) == "ann" && Render(None) == "undefined";
    }
    assert Split(topicFilter, '/') == ["sensors", "#"] by {
      assert Join(["sensors", "#"], '/') == "sensors/#";
      SplitJoin(["sensors", "#"], '/');
    }
    ExpandLevels(topicFilter, username, None);
    assert "#"[0] != "%u"[0] && "#"[0] != "%c"[0];
    assert SubstLevel("#", "%u", "ann") == "#";
    assert SubstLevel("#", "%c", "undefined") == "#";
  }

  /** The corrected hook admits every publisher the ACLs admit, whatever the user object carries. */
  lemma CreateByAclAdmitsPublishers(guard: Guard, user: User, recordId: RecordId, sessionId: Option<string>, i: nat)
    requires ResolvableAll(guard.acls, user, true)
    requires i < |guard.acls| && Applies(guard.acls[i], UserGroups(user), true)
    requires PatternMatches(guard.levels + IdLevels(recordId),
                            Expand(guard.acls[i].topicFilter.value, user.username, sessionId))
    ensures Permitted(guard.levels + IdLevels(recordId), Some(FindTopicsForUser(guard.acls, user, sessionId, true)))
  {
    ResolvedDecision(guard.levels + IdLevels(recordId), guard.acls, user, sessionId, true);
  }

  /**
   * End to end: `home/%u/+` for `residents` resolves for alice to `home/alice/+`, which
   * admits `home/alice/kitchen`; `home/bob/kitchen` is not admitted.
   */
  lemma HomeScenario(acl: AclEntry, alice: User)
    requires acl == AclEntry(Some("home/%u/+"), Some(["residents"]), None, false)
    requires alice == User(Some("alice"), List(["residents"]), Undefined, None)
    ensures ResolvableAll([acl], alice, false)
    ensures FindTopicsForUser([acl], alice, None, false) == [["home", "alice", "+"]]
    ensures Permitted(["home", "alice", "kitchen"], Some(FindTopicsForUser([acl], alice, None, false)))
    ensures !Permitted(["home", "bob", "kitchen"], Some(FindTopicsForUser([acl], alice, None, false)))
  {
    HomeTopics([acl], alice);
    var pattern := ["home", "alice", "+"];
    NoMultiLevelExactDepth(["home", "alice", "kitchen"], pattern);
    NoMultiLevelExactDepth(["home", "bob", "kitchen"], pattern);
    assert LevelMatches(pattern[0], "home") && LevelMatches(pattern[1], "alice") && LevelMatches(pattern[2], "kitchen");
    assert !LevelMatches(pattern[1], "bob");
    assert PatternMatches(["home", "alice", "kitchen"], [["home", "alice", "+"]][0]);
  }

  lemma HomeTopics(acls: seq<AclEntry>, alice: User)
    requires acls == [AclEntry(Some("home/%u/+"), Some(["residents"]), None, false)]
    requires alice == User(Some("alice"), List(["residents"]), Undefined, None)
    ensures ResolvableAll(acls, alice, false)
    ensures FindTopicsForUser(acls, alice, None, false) == [["home", "alice", "+"]]
  {
    var acl := acls[0];
    assert "residents" in ["residents"];
    assert Applies(acl, UserGroups(alice), false);
    HomeExpansion(acl.topicFilter.value, alice.username);
    assert FindTopicsForUser(acls, alice, None, false)
        == Contribution(acl, alice, None, false) + FindTopicsForUser(acls[1..], alice, None, false);
  }

  lemma HomeExpansion(topicFilter: string, username: Option<string>)
    requires topicFilter == "home/%u/+" && username == Some("alice")
    ensures Expand(topicFilter, username, None) == ["home", "alice", "+"]
  {
    assert '/' !in Render(username) && '/' !in Render(None) by {
      assert Render(username) == "alice" && Render(None) == "undefined";
    }
    assert Split(topicFilter, '/') == ["home", "%u", "+"] by {
      assert Join(["home", "%u", "+"], '/') == "home/%u/+";
      SplitJoin(["home", "%u", "+"], '/');
    }
    ExpandLevels(topicFilter, username, None);
    assert "%u"[..2] == "%u" && "%u"[2..] == "";
    assert "+"[0] != "%u"[0] && "alice"[0] != "%c"[0] && "+"[0] != "%c"[0];
    assert SubstLevel("%u", "%u", "alice") == "alice" && SubstLevel("+", "%u", "alice") == "+";
    assert SubstLevel("alice", "%c", "undefined") == "alice" && SubstLevel("+", "%c", "undefined") == "+";
  }
}
