# MQTT ACL plugin — a Dafny model

This project models the access-control core of an MQTT ACL plugin for a HarperDB
application server. A configuration file lists ACLs. Each ACL has a topic filter
(`home/%u/+`, `sensors/#`) and the groups that may subscribe to it or publish to it.

The plugin does three things, and the model covers all three:

- **Loading the configuration.** `handleFile` validates the ACLs. It assigns each ACL to
  the resource it guards: the longest registered prefix of its filter, or else a table
  named after the filter's first level, created on demand. It then replaces each guarded
  resource in the host registry with a subclass that carries that resource's ACLs.
- **Resolving the ACLs for a user.** `findTopicsForUser` turns the ACLs into the level
  patterns that grant a user and client id a direction (subscribe or publish). It fills
  in the `%u` and `%c` placeholders.
- **Deciding.** `mqttPermissionCheck` decides whether a topic, split into levels, is
  covered by one of those patterns. It uses the MQTT topic-filter wildcards: `+` matches
  one level, `#` matches several. The subclass hooks `allowRead` and `allowCreate` use
  this decision, and fall back to the base class.

Modules:

- `Options`: the `Option` type.
- `Strings`: the JavaScript `split` and `join` that the core relies on, and a global
  replace of a fixed substring by literal text, with their round-trip lemmas.
- `Matcher`: `mqttPermissionCheck`. It is an imperative method with the source's nested
  loops, `break` and `continue`, proved against the recursive walk `ScanFrom`. That walk
  is in turn proved equivalent to an independent level-wise reading, `Covers`.
- `Resolver`: `findTopicsForUser` as a function over ACL lists.
- `Extension`: the grouping and registry update of `handleFile`, as methods over a
  `Registry` class. Also `allowRead` and `allowCreate`.

How the model represents the source:

- **Data.** JavaScript values become datatypes:
  - the user's `mqtt_permissions.publishes` list becomes `None` when it is missing or is
    not an array, which the check at permission.js:27 refuses;
  - an ACL's `subscribers` or `publishers` list becomes `None` only when it is missing or
    null; the model has no value for a present non-array list, which makes the source
    throw (see `Resolver.Applies` under "## Left out");
  - an ACL's `topicFilter` becomes `None` when it is missing or is not a string;
  - a group value is `Undefined`, `Text` or `List`;
  - a record id is an array, a falsy value, or any other value.
- **The base class.** What the base class's own `allowRead` / `allowCreate` would answer
  is the `inherited` parameter.
- **Table creation.** The `ensureTable` calls are returned as a list, in call order.

Where the code and its comments or tests disagree, the model follows the code:

- **Shallower ids.** The comment at permission.js:38 says a shallower id is acceptable.
  The final check at line 78 demands equal depth unless a `#` was reached, so the model
  refuses shallower ids (`Matcher.NoMultiLevelExactDepth`).
- **Test titles.** Two tests in test/permission.js are titled "expect true" but assert
  `false` (lines 27-30 and 47-50). The model decides them as the assertions do.
- **MQTT 3.1.1.** The source departs from section 4.7.1.2 of MQTT Version 3.1.1, where
  `sport/#` also matches `sport`. Here an id that stops just before the `#` is refused
  (`Matcher.MultiLevelSuffix`). A pattern `+` also refuses an id level that is itself
  `#`.

## Model

| member | source | states |
|---|---|---|
| Matcher.MqttPermissionCheck | permission.js:26-85 | The nested loops return exactly `Permitted`: the list is present and non-empty, and some pattern's walk reaches a `#` or ends at equal depth with every level admitted. |
| Matcher.ScanFromSpec | permission.js:39-73 | The walk from level `y` over an admitted prefix reaches `#` exactly when some later `#` follows an admitted prefix. It runs out of id levels exactly when the id is no deeper than the pattern and every level is admitted. |
| Matcher.PatternMatchesIffCovers | permission.js:39-81 | One pattern admits an id exactly when the id reaches a `#` after admitted levels, or has the pattern's depth with every level admitted (both directions). |
| Matcher.NoPatternsRefuse | permission.js:27-29 | A missing or non-array list, or an empty list, refuses every id. |
| Matcher.PermittedConcat | permission.js:34-81 | Splitting the allowed list splits the decision: permitted by `a + b` exactly when permitted by `a` or by `b`. |
| Matcher.PermittedReorder | permission.js:34-81 | Any permutation of the allowed patterns gives the same decision; the first match only ends the search early. |
| Matcher.NoMultiLevelExactDepth | permission.js:39-81 | Without `#`, a pattern admits exactly the ids of its own depth whose levels it admits one by one; shallower and deeper ids are refused. |
| Matcher.SingleLevelRefusesMultiLevel | permission.js:57-62 | A pattern `+` facing an id level `#` refuses the id, unless an earlier `#` already decided. |
| Matcher.MultiLevelSuffix | permission.js:51-80 | A `#` at level `y` admits every id deeper than `y` whose first `y` levels are admitted; an id that stops at `y` is refused. |
| Matcher.VerbatimPermitted | permission.js:39-81 | An id listed verbatim among the patterns is permitted, even when it contains `+` or `#`. |
| Matcher.LibertyScenarios | test/permission.js:5-82 | All fourteen distinct cases of the repository's fifteen tests (the `liberty/#` case appears twice) come out as the tests assert. |
| Resolver.UserGroups | permission.js:11-13 | The user's groups are undefined exactly when `authGroups` is falsy and `role.role` is absent. An array `authGroups` is used as it is; when `authGroups` is falsy, an array `role.role` is used as it is. |
| Resolver.GroupStringRoundTrip | permission.js:12-13 | A group string joined with `;`, given as a truthy `authGroups` or as `role.role` behind a falsy `authGroups`, gives back exactly the groups it was joined from. |
| Resolver.AppliesRule | permission.js:10-14 | An ACL with no groups for the direction never applies. For subscribe, `anonymousSubscriber` admits through a non-empty `subscribers` list. Otherwise the ACL applies exactly when it shares a group with the user. |
| Resolver.MissingUsernameRendersUndefined | permission.js:15 | `Render`: a missing user name is rendered as the text `undefined`, so a `%u` level after the first becomes the fixed level `undefined` and the expansion keeps its depth. |
| Resolver.Expand | permission.js:15 | The expanded filter always has at least one level. |
| Resolver.ExpandWithoutPlaceholders | permission.js:15 | A filter with neither `/%u` nor `/%c` expands to its own split. |
| Resolver.ExpandLevels | permission.js:15 | The first level is kept. Every later level that starts with `%u` gets the user name in place of it, then every later level that starts with `%c` gets the client id. An undefined value renders as `undefined`. Assumes neither value contains `/`. |
| Resolver.FindTopicsForUser | permission.js:8-18 | No more results than ACLs, and every result has at least one level. |
| Resolver.FindTopicsConcat | permission.js:9-17 | The resolver distributes over concatenation of ACL lists. |
| Resolver.FindTopicsPerAcl | permission.js:9-17 | Each ACL contributes its expansion at its own position when it applies, and nothing otherwise: no reordering, merging or deduplication. |
| Resolver.FindTopicsMembership | permission.js:9-17 | A level list is resolved exactly when it is the expansion of an ACL that applies to the user in that direction (both directions). |
| Strings.SplitJoin | extension.js:20-25 | Splitting a `/`-joined list of separator-free parts gives the parts back. |
| Strings.JoinSplit | extension.js:20-25 | Joining a split string gives the string back. |
| Strings.Split | extension.js:20 | `split` always gives at least one part, and no part contains the separator. |
| Strings.ReplaceAllOverLevels | permission.js:15 | A global replace of separator + token rewrites exactly the later levels that start with the token. |
| Strings.ReplaceAllAbsent | permission.js:15 | `ReplaceAll` leaves a string without the pattern unchanged. |
| Extension.Registry.Set | extension.js:43 | `resources.set` replaces one path's entry and changes nothing else. |
| Extension.FindResourcePath | extension.js:23-34 | The decrementing prefix search returns the spec path `ResourcePath`. It reports whether that path is registered. When it is not, the path is the first level and no prefix of any length is registered. |
| Extension.ReloadEnsuresNoTables | extension.js:26-34 | `Registered`: after a load, every path it chose holds a guard. Loading the same ACLs again against that registry therefore asks `ensureTable` for nothing. |
| Extension.ResourcePathLongest | extension.js:23-34 | The chosen path is the longest registered prefix, trying all levels down to one. When none is registered, it is the first level. |
| Extension.ResourcePathIsPrefix | extension.js:20-25 | The chosen path, split again, is a non-empty prefix of the filter's levels. |
| Extension.GroupAcls | extension.js:18-39 | Fails with the source's message exactly when some filter is not a string. It then returns the `ensureTable` calls made before the first bad ACL. Otherwise it returns the distinct paths in first-use order, each path's group with its base, and one `ensureTable` call per ACL with no registered prefix. |
| Extension.ApplyGroups | extension.js:40-44 | The registry becomes the old registry overridden by one guard per group path. |
| Extension.HandleFile | extension.js:12-44 | On an ACL without a string filter the error is raised and the registry is unchanged. Otherwise the registry is the old one overridden by `Guards`, and the table calls are `EnsuredTables`. |
| Extension.DatabaseName | extension.js:14 | The configured database when it is a non-empty name, and `data` otherwise; the name is never empty. |
| Extension.GroupNonEmptyIff | extension.js:36-38 | A path has a non-empty group exactly when it is among the chosen paths. |
| Extension.PathOrderSpec | extension.js:36-40 | The group keys are distinct and are exactly the paths chosen for the ACLs. |
| Extension.GroupConcat | extension.js:38 | Grouping a concatenation concatenates the groups, so input order is kept within a group. |
| Extension.GroupMembers | extension.js:36-38 | Every ACL in a group was given, has a string filter, and was assigned that group's path. |
| Extension.GroupsPartition | extension.js:18-38 | Every ACL lands in exactly one group: the group sizes sum to the number of ACLs. |
| Extension.GuardsSound | extension.js:36-48 | Every written entry is a guard over a non-empty group of the given ACLs, on the path's base. Its levels are the path split on `/`, a prefix of each of its ACLs' filter levels. |
| Extension.AllowRead | extension.js:49-57 | Allowed exactly when the context topic, split on `/`, is permitted by the resolved subscribe patterns, or the base class allows. |
| Extension.AllowCreate | extension.js:59-74 | As written: allowed exactly when the path levels followed by the id levels are permitted by the user's `mqtt_permissions.publishes`, or the base class allows. |
| Extension.CreatedIdUnderPath | extension.js:60-68 | `IdLevels`: the created id is the path levels followed by the normalised record id. A pattern of the path levels followed by `#` admits it exactly when the id adds a level, which is a non-empty array or a non-empty text id; a falsy id is refused. |
| Extension.ResolvedDecision | extension.js:52-53 | Over resolved patterns, an id is admitted exactly when some applicable ACL's expanded filter admits it (both directions). |
| Extension.CreateIgnoresPublishAcls | extension.js:69-70 | A `writers` member with a publish ACL `sensors/#` and no `mqtt_permissions` is refused `sensors/t1`, although the resolved publish patterns admit it. |
| Extension.AllowCreateByAcl | extension.js:59-74 | Corrected hook: the same id, checked against the resolved publish patterns. |
| Extension.CreateByAclAdmitsPublishers | extension.js:59-74 | The corrected hook admits every id that some applicable publish ACL's expansion admits. |
| Extension.HomeScenario | permission.js:8-18 | `home/%u/+` for `residents` resolves for alice to `home/alice/+`. That pattern admits `home/alice/kitchen` and refuses `home/bob/kitchen`. |

## Left out

- monitorEvents.js is not part of this model. It is event monitoring, started from `start` (extension.js:4-11), which is host wiring.
- `JSON.parse` of the file content and a missing `acls` array (extension.js:13,18) are not modelled. The model starts from the parsed list of ACLs.
- The `databases[database_name]` lookup (extension.js:15) is not modelled. Its result is never used.
- Dynamic subclassing (`class extends resource`) and `super` calls are not modelled. A guard is a value, and the base class's answer is the `inherited` parameter.
- Extension.Registered: a guard written by an earlier `handleFile` counts as a resource, because the registry's own `Resource` lookup is host code.
- A null user, or a missing context or topic in `allowRead`, makes the source throw. The model has no such inputs: the user is a value and the topic a string.
- Resolver.Applies: `includes` on undefined user groups throws in the source. The model makes this the precondition `ResolvableAll` rather than an error result.
- Group lists and record ids holding non-string values are not modelled; JavaScript strict equality on numbers and objects is outside the model.
- Resolver.Applies: an ACL group list that is present but not an array (a `;`-string such as `"subscribers": "residents"`) makes `acl_groups?.some(...)` throw in the source, because a string has no `some`. The model's group list is either missing or an array, so that throw is not modelled.
- Resolver.Expand: the user name and client id are inserted verbatim. JavaScript's `replace` would expand the `$&`, `` $` ``, `$'` and `$$` patterns in them (a user name `$&` turns `home/%u/+` into `home//%u/+` there), and this is not modelled.
- Extension.AllowRead: when a guard's base is a guard from an earlier load (`Existing(Guarded(…))`), the source's fallback `super.allowRead(user)` runs that guard's own `allowRead` without a context and throws at `topic.split`. The model takes the fallback's answer as the `inherited` parameter and does not model that throw.
- Resolver.ExpandLevels: assumes neither the user name nor the client id contains `/`. Such a value adds levels, and the lemma does not describe that case; `Expand` itself still models it.
- Concurrency and the asynchronous `handleFile` are not modelled. Each call is atomic here.

## Findings

| source | as written | input that shows it | evidently intended | confidence | as-written member | corrected member |
|---|---|---|---|---|---|---|
| extension.js:69-70 | `allowCreate` computes the resolved publish patterns, then checks the id against `user.mqtt_permissions.publishes` instead | ACL `sensors/#` with `publishers: ["writers"]`, user `ann` in `writers` without `mqtt_permissions`, record id `t1`: refused unless the base class allows | check the id against the resolved publish patterns, as `allowRead` does for subscribe | medium; not executed | Extension.CreateIgnoresPublishAcls | Extension.CreateByAclAdmitsPublishers |
