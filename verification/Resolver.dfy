/**
 * The ACL resolver of permission.js (`findTopicsForUser`): for a user, a client id and
 * a direction, the level patterns of the ACLs that grant that user that direction,
 * in ACL order, with the `/%u` and `/%c` placeholders filled in.
 */
module Resolver {
  import opened Options
  import opened Strings

  /** A group-membership value as the user object may carry it. */
  datatype GroupsValue =
    | Undefined               // absent, null, or any other falsy non-string
    | Text(text: string)      // one string, groups separated by `;`
    | List(items: seq<string>)

  /**
   * The parts of the user object the plugin reads: `username`, `authGroups`,
   * `role.role` (Undefined when `role` is absent) and `mqtt_permissions.publishes`
   * (None when absent or not an array).
   */
  datatype User = User(
    username: Option<string>,
    authGroups: GroupsValue,
    roleGroups: GroupsValue,
    mqttPublishes: Option<seq<seq<string>>>)

  /**
   * One entry of the configuration's `acls` array. `topicFilter` is None when it is
   * missing or not a string; a group list is None when it is missing or null (a present
   * non-array group list makes the source throw and has no value here).
   */
  datatype AclEntry = AclEntry(
    topicFilter: Option<string>,
    subscribers: Option<seq<string>>,
    publishers: Option<seq<string>>,
    anonymousSubscriber: bool)

  /** JavaScript truthiness of a group value: an empty string is falsy, an empty array is not. */
  predicate Truthy(v: GroupsValue)
  {
    match v
    case Undefined => false
    case Text(s) => s != ""
    case List(_) => true
  }

  /**
   * `user.authGroups || user.role?.role`, a string split on `;`. A falsy string that
   * survives (only `""` can) is searched with `String.prototype.includes`, which holds
   * of a group exactly when the group is `""`: the same as the list `[""]` that
   * `"".split(';')` gives, so both cases are one here. None is `undefined`.
   */
  function UserGroups(user: User): (groups: Option<seq<string>>)
    ensures groups.None? <==> !Truthy(user.authGroups) && user.roleGroups.Undefined?
    ensures Truthy(user.authGroups) && user.authGroups.List? ==> groups == Some(user.authGroups.items)
    ensures !Truthy(user.authGroups) && user.roleGroups.List? ==> groups == Some(user.roleGroups.items)
  {
    var value := if Truthy(user.authGroups) then user.authGroups else user.roleGroups;
    match value
    case Undefined => None
    case Text(s) => Some(Split(s, ';'))
    case List(items) => Some(items)
  }

  /** `acl[publish ? 'publishers' : 'subscribers']`. */
  function DirectionGroups(acl: AclEntry, publish: bool): Option<seq<string>>
  {
    if publish then acl.publishers else acl.subscribers
  }

  /** The ACL names at least one group for the direction. */
  predicate NamesGroups(acl: AclEntry, publish: bool)
  {
    DirectionGroups(acl, publish).Some? && |DirectionGroups(acl, publish).value| > 0
  }

  /**
   * `acl_groups?.some(group => user_groups.includes(group) || (!publish && acl.anonymousSubscriber))`.
   * `includes` on undefined user groups throws, so the caller must not get here with
   * no user groups and a non-empty group list.
   */
  predicate Applies(acl: AclEntry, groups: Option<seq<string>>, publish: bool)
    requires NamesGroups(acl, publish) ==> groups.Some?
  {
    match DirectionGroups(acl, publish)
    case None => false
    case Some(aclGroups) =>
      exists i :: 0 <= i < |aclGroups| &&
        (aclGroups[i] in groups.value || (!publish && acl.anonymousSubscriber))
  }

  /**
   * The resolver runs to completion on this ACL: no `includes` on undefined groups,
   * and a string filter wherever the filter is read.
   */
  predicate Resolvable(acl: AclEntry, groups: Option<seq<string>>, publish: bool)
  {
    (NamesGroups(acl, publish) ==> groups.Some?) &&
    (Applies(acl, groups, publish) ==> acl.topicFilter.Some?)
  }

  predicate ResolvableAll(acls: seq<AclEntry>, user: User, publish: bool)
  {
    forall i :: 0 <= i < |acls| ==> Resolvable(acls[i], UserGroups(user), publish)
  }

  /** A template literal renders an undefined value as `undefined`. */
  function Render(v: Option<string>): string
  {
    match v
    case Some(s) => s
    case None => "undefined"
  }

  /**
   * `topicFilter.replace(/\/%u/g, '/' + username).replace(/\/%c/g, '/' + client_id).split('/')`.
   * The user name and client id are inserted verbatim; JavaScript would also expand
   * `$` patterns in them.
   */
  function Expand(topicFilter: string, username: Option<string>, clientId: Option<string>): (levels: seq<string>)
    ensures |levels| >= 1
  {
    var withUser := ReplaceAll(topicFilter, "/%u", "/" + Render(username));
    var withClient := ReplaceAll(withUser, "/%c", "/" + Render(clientId));
    Split(withClient, '/')
  }

  /** What one ACL adds to the resolver's result: its expanded filter, or nothing. */
  function Contribution(acl: AclEntry, user: User, clientId: Option<string>, publish: bool): seq<seq<string>>
    requires Resolvable(acl, UserGroups(user), publish)
  {
    if Applies(acl, UserGroups(user), publish)
    then [Expand(acl.topicFilter.value, user.username, clientId)] else []
  }

  /** findTopicsForUser: one level list per applicable ACL, in ACL order. */
  function FindTopicsForUser(acls: seq<AclEntry>, user: User, clientId: Option<string>, publish: bool)
    : (topics: seq<seq<string>>)
    requires ResolvableAll(acls, user, publish)
    ensures |topics| <= |acls|
    ensures forall t :: 0 <= t < |topics| ==> |topics[t]| >= 1
  {
    if |acls| == 0 then []
    else
      Contribution(acls[0], user, clientId, publish) + FindTopicsForUser(acls[1..], user, clientId, publish)
  }

  /*
   * Properties of the resolver.
   */

  lemma ResolvableAllConcat(a: seq<AclEntry>, b: seq<AclEntry>, user: User, publish: bool)
    ensures ResolvableAll(a + b, user, publish) <==> ResolvableAll(a, user, publish) && ResolvableAll(b, user, publish)
  {
    if ResolvableAll(a, user, publish) && ResolvableAll(b, user, publish) {
      forall i | 0 <= i < |a + b|
        ensures Resolvable((a + b)[i], UserGroups(user), publish)
      {
        if i >= |a| {
          assert (a + b)[i] == b[i - |a|];
        }
      }
    }
    if ResolvableAll(a + b, user, publish) {
      forall i | 0 <= i < |a|
        ensures Resolvable(a[i], UserGroups(user), publish)
      {
        assert (a + b)[i] == a[i];
      }
      forall i | 0 <= i < |b|
        ensures Resolvable(b[i], UserGroups(user), publish)
      {
        assert (a + b)[|a| + i] == b[i];
      }
    }
  }

  /** The resolver distributes over concatenation of ACL lists. */
  lemma {:induction false} FindTopicsConcat(a: seq<AclEntry>, b: seq<AclEntry>, user: User,
                                            clientId: Option<string>, publish: bool)
    requires ResolvableAll(a, user, publish) && ResolvableAll(b, user, publish)
    ensures ResolvableAll(a + b, user, publish)
    ensures FindTopicsForUser(a + b, user, clientId, publish)
         == FindTopicsForUser(a, user, clientId, publish) + FindTopicsForUser(b, user, clientId, publish)
  {
    ResolvableAllConcat(a, b, user, publish);
    if |a| > 0 {
      assert (a + b)[0] == a[0];
      assert (a + b)[1..] == a[1..] + b;
      ResolvableAllConcat([a[0]], a[1..], user, publish);
      assert [a[0]] + a[1..] == a;
      FindTopicsConcat(a[1..], b, user, clientId, publish);
    } else {
      assert a + b == b;
    }
  }

  /**
   * Each ACL contributes its own expanded filter exactly where it stands, when it
   * applies, and nothing otherwise: no reordering, no merging, no deduplication.
   */
  lemma FindTopicsPerAcl(before: seq<AclEntry>, acl: AclEntry, after: seq<AclEntry>, user: User,
                         clientId: Option<string>, publish: bool)
    requires ResolvableAll(before, user, publish) && ResolvableAll(after, user, publish)
    requires Resolvable(acl, UserGroups(user), publish)
    ensures ResolvableAll(before + [acl] + after, user, publish)
    ensures FindTopicsForUser(before + [acl] + after, user, clientId, publish)
         == FindTopicsForUser(before, user, clientId, publish)
          + Contribution(acl, user, clientId, publish)
          + FindTopicsForUser(after, user, clientId, publish)
  {
    FindTopicsSingle(acl, user, clientId, publish);
    FindTopicsConcat(before, [acl], user, clientId, publish);
    var front := before + [acl];
    FindTopicsConcat(front, after, user, clientId, publish);
  }

  /** A single ACL resolves to its own contribution. */
  lemma FindTopicsSingle(acl: AclEntry, user: User, clientId: Option<string>, publish: bool)
    requires Resolvable(acl, UserGroups(user), publish)
    ensures ResolvableAll([acl], user, publish)
    ensures FindTopicsForUser([acl], user, clientId, publish) == Contribution(acl, user, clientId, publish)
  {
    assert [acl][1..] == [];
    assert FindTopicsForUser([acl], user, clientId, publish) == Contribution(acl, user, clientId, publish) + [];
  }

  /** A level list is resolved exactly when it is the expansion of an applicable ACL. */
  lemma {:induction false} FindTopicsMembership(acls: seq<AclEntry>, user: User, clientId: Option<string>, publish: bool)
    requires ResolvableAll(acls, user, publish)
    ensures forall t :: t in FindTopicsForUser(acls, user, clientId, publish) <==>
      exists i :: 0 <= i < |acls| && Applies(acls[i], UserGroups(user), publish) &&
        t == Expand(acls[i].topicFilter.value, user.username, clientId)
  {
    if |acls| > 0 {
      assert ResolvableAll(acls[1..], user, publish);
      FindTopicsMembership(acls[1..], user, clientId, publish);
      forall t | t in FindTopicsForUser(acls, user, clientId, publish)
        ensures exists i :: (0 <= i < |acls| && Applies(acls[i], UserGroups(user), publish) &&
          t == Expand(acls[i].topicFilter.value, user.username, clientId))
      {
        assert FindTopicsForUser(acls, user, clientId, publish)
            == Contribution(acls[0], user, clientId, publish) + FindTopicsForUser(acls[1..], user, clientId, publish);
        if t !in Contribution(acls[0], user, clientId, publish) {
          assert t in FindTopicsForUser(acls[1..], user, clientId, publish);
          var i :| 0 <= i < |acls[1..]| && Applies(acls[1..][i], UserGroups(user), publish) &&
            t == Expand(acls[1..][i].topicFilter.value, user.username, clientId);
          assert acls[1..][i] == acls[i + 1];
        }
      }
      forall i | 0 <= i < |acls| && Applies(acls[i], UserGroups(user), publish)
        ensures Expand(acls[i].topicFilter.value, user.username, clientId) in FindTopicsForUser(acls, user, clientId, publish)
      {
        if i > 0 {
          assert acls[1..][i - 1] == acls[i];
        }
      }
    }
  }

  /**
   * Which ACLs apply: for publish only a shared group counts; for subscribe the
   * `anonymousSubscriber` flag also admits, but only through a non-empty `subscribers`
   * list; an ACL without groups for the direction never applies.
   */
  lemma AppliesRule(acl: AclEntry, groups: Option<seq<string>>, publish: bool)
    requires NamesGroups(acl, publish) ==> groups.Some?
    ensures !NamesGroups(acl, publish) ==> !Applies(acl, groups, publish)
    ensures NamesGroups(acl, publish) && !publish && acl.anonymousSubscriber ==> Applies(acl, groups, publish)
    ensures NamesGroups(acl, publish) && (publish || !acl.anonymousSubscriber) ==>
      (Applies(acl, groups, publish) <==>
        exists g :: g in DirectionGroups(acl, publish).value && g in groups.value)
  {
    if NamesGroups(acl, publish) {
      var aclGroups := DirectionGroups(acl, publish).value;
      if !publish && acl.anonymousSubscriber {
        assert aclGroups[0] in aclGroups;
      }
      if exists g :: g in aclGroups && g in groups.value {
        var g :| g in aclGroups && g in groups.value;
        var i :| 0 <= i < |aclGroups| && aclGroups[i] == g;
      }
    }
  }

  /** A `;`-separated group string gives back exactly the groups it was joined from. */
  lemma GroupStringRoundTrip(user: User, groups: seq<string>)
    requires |groups| >= 1 && forall i :: 0 <= i < |groups| ==> ';' !in groups[i]
    requires || (user.authGroups == Text(Join(groups, ';')) && Join(groups, ';') != "")
             || (!Truthy(user.authGroups) && user.roleGroups == Text(Join(groups, ';')))
    ensures UserGroups(user) == Some(groups)
  {
    SplitJoin(groups, ';');
  }

  /** A filter holding neither `/%u` nor `/%c` comes back as its own split. */
  lemma ExpandWithoutPlaceholders(topicFilter: string, username: Option<string>, clientId: Option<string>)
    requires !Occurs(topicFilter, "/%u") && !Occurs(topicFilter, "/%c")
    ensures Expand(topicFilter, username, clientId) == Split(topicFilter, '/')
  {
    ReplaceAllAbsent(topicFilter, "/%u", "/" + Render(username));
    ReplaceAllAbsent(topicFilter, "/%c", "/" + Render(clientId));
  }

  /**
   * Level by level: the first level is never rewritten; every later level that starts
   * with `%u` gets the user name in place of those two characters, and then every later
   * level that starts with `%c` gets the client id; a `%u` or `%c` anywhere else stays.
   * This holds when neither value contains `/` (which would add levels).
   */
  lemma ExpandLevels(topicFilter: string, username: Option<string>, clientId: Option<string>)
    requires '/' !in Render(username) && '/' !in Render(clientId)
    ensures var levels := Split(topicFilter, '/');
      Expand(topicFilter, username, clientId)
        == [levels[0]] + SubstEach(SubstEach(levels[1..], "%u", Render(username)), "%c", Render(clientId))
  {
    var levels := Split(topicFilter, '/');
    var u := Render(username);
    var c := Render(clientId);
    assert "/%u" == ['/'] + "%u" && "/%c" == ['/'] + "%c";
    JoinSplit(topicFilter, '/');
    ReplaceAllOverLevels(levels, '/', "%u", u);
    var once := [levels[0]] + SubstEach(levels[1..], "%u", u);
    var withUser := ReplaceAll(topicFilter, "/%u", "/" + u);
    assert withUser == Join(once, '/');
    SubstKeepsSeparatorFree(levels, '/', "%u", u);
    assert once[0] == levels[0] && once[1..] == SubstEach(levels[1..], "%u", u);
    ReplaceAllOverLevels(once, '/', "%c", c);
    var twice := [levels[0]] + SubstEach(once[1..], "%c", c);
    var withClient := ReplaceAll(withUser, "/%c", "/" + c);
    assert withClient == Join(twice, '/');
    SubstKeepsSeparatorFree(once, '/', "%c", c);
    SplitJoin(twice, '/');
    assert Expand(topicFilter, username, clientId) == Split(withClient, '/');
  }

  /**
   * For a user without a user name, a `%u` level after the first becomes the literal
   * level `undefined`: the ACL then grants that one fixed topic level, not a per-user one.
   */
  lemma MissingUsernameRendersUndefined(topicFilter: string, username: Option<string>, clientId: Option<string>, k: nat)
    requires username.None? && '/' !in Render(clientId)
    requires 1 <= k < |Split(topicFilter, '/')| && Split(topicFilter, '/')[k] == "%u"
    ensures |Expand(topicFilter, username, clientId)| == |Split(topicFilter, '/')|
    ensures Expand(topicFilter, username, clientId)[k] == "undefined"
  {
    var levels := Split(topicFilter, '/');
    var u := Render(username);
    var c := Render(clientId);
    assert u == "undefined";
    ExpandLevels(topicFilter, username, clientId);
    var once := SubstEach(levels[1..], "%u", u);
    var twice := SubstEach(once, "%c", c);
    assert Expand(topicFilter, username, clientId) == [levels[0]] + twice;
    assert levels[1..][k - 1] == "%u";
    UndefinedLevel(levels[1..][k - 1], c);
    assert twice[k - 1] == SubstLevel(once[k - 1], "%c", c);
  }

  /** The two rewrites turn a `%u` level into `undefined` when the user name is missing. */
  lemma UndefinedLevel(level: string, c: string)
    requires level == "%u"
    ensures SubstLevel(SubstLevel(level, "%u", "undefined"), "%c", c) == "undefined"
  {
    assert level[..2] == "%u" && level[2..] == "";
    assert SubstLevel(level, "%u", "undefined") == "undefined";
    assert "undefined"[0] != "%c"[0];
  }

  lemma SubstKeepsSeparatorFree(levels: seq<string>, d: char, tok: string, rep: string)
    requires |levels| >= 1 && d !in rep
    requires forall i :: 0 <= i < |levels| ==> d !in levels[i]
    ensures var r := [levels[0]] + SubstEach(levels[1..], tok, rep);
      forall i :: 0 <= i < |r| ==> d !in r[i]
  {
    var r := [levels[0]] + SubstEach(levels[1..], tok, rep);
    forall i | 0 <= i < |r| ensures d !in r[i] {
      if i > 0 {
        var l := levels[1..][i - 1];
        assert r[i] == SubstLevel(l, tok, rep);
        if StartsWith(l, tok) {
          assert r[i] == rep + l[|tok|..];
          assert d !in l[|tok|..];
        }
      }
    }
  }
}
