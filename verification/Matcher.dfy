/**
 * The topic matcher of permission.js (`mqttPermissionCheck`): is a topic, already
 * split into levels, covered by one of a list of allowed level patterns?
 *
 * It uses the topic-filter wildcards of MQTT Version 3.1.1 (section 4.7.1:
 * `+` single level, `#` multi level), with two departures that the model keeps:
 * an id that ends exactly before a `#` level is refused (`sport` does not match
 * `sport/#`), and a pattern `+` refuses an id level that is itself `#`.
 */
module Matcher {
  import opened Options

  /** How the per-level walk over one pattern ends. */
  datatype Scan =
    | MultiLevel   // reached a `#` in the pattern: the whole check succeeds
    | Refused      // pattern too short, `+` over `#`, or a literal mismatch
    | Exhausted    // walked every level of the id without deciding

  /** The walk over the id's levels from index `y`, as the inner loop performs it. */
  function ScanFrom(id: seq<string>, pattern: seq<string>, y: nat): Scan
    requires y <= |id|
    decreases |id| - y
  {
    if y == |id| then Exhausted
    else if y >= |pattern| then Refused
    else if pattern[y] == "#" then MultiLevel
    else if pattern[y] == "+" then
      if id[y] == "#" then Refused else ScanFrom(id, pattern, y + 1)
    else if pattern[y] != id[y] then Refused
    else ScanFrom(id, pattern, y + 1)
  }

  /** One pattern admits the id: a `#` was reached, or the walk ended at equal depth. */
  predicate PatternMatches(id: seq<string>, pattern: seq<string>)
  {
    match ScanFrom(id, pattern, 0)
    case MultiLevel => true
    case Refused => false
    case Exhausted => |id| == |pattern|
  }

  /** The result of the check: some allowed pattern admits the id. */
  predicate Permitted(id: seq<string>, allowedTopics: Option<seq<seq<string>>>)
  {
    allowedTopics.Some? &&
    exists x :: 0 <= x < |allowedTopics.value| && PatternMatches(id, allowedTopics.value[x])
  }

  /*
   * An independent, level-wise reading of the same rule.
   */

  /** A pattern level other than `#` admits an id level. */
  predicate LevelMatches(sub: string, level: string)
  {
    if sub == "+" then level != "#" else sub != "#" && sub == level
  }

  /** The first `n` levels of the id are admitted one by one. */
  predicate PrefixMatches(id: seq<string>, pattern: seq<string>, n: nat)
    requires n <= |id| && n <= |pattern|
  {
    forall i :: 0 <= i < n ==> LevelMatches(pattern[i], id[i])
  }

  /** A `#` at a level the id reaches after an admitted prefix, or equal depth admitted throughout. */
  predicate Covers(id: seq<string>, pattern: seq<string>)
  {
    (exists k :: 0 <= k < |id| && k < |pattern| && pattern[k] == "#" && PrefixMatches(id, pattern, k))
    || (|id| == |pattern| && PrefixMatches(id, pattern, |id|))
  }

  lemma {:induction false} ScanFromSpec(id: seq<string>, pattern: seq<string>, y: nat)
    requires y <= |id| && y <= |pattern| && PrefixMatches(id, pattern, y)
    ensures ScanFrom(id, pattern, y) == MultiLevel <==>
      exists k :: y <= k < |id| && k < |pattern| && pattern[k] == "#" && PrefixMatches(id, pattern, k)
    ensures ScanFrom(id, pattern, y) == Exhausted <==>
      |id| <= |pattern| && PrefixMatches(id, pattern, |id|)
    decreases |id| - y
  {
    if y == |id| {
    } else if y == |pattern| {
    } else if pattern[y] == "#" {
      assert !LevelMatches(pattern[y], id[y]);
    } else if LevelMatches(pattern[y], id[y]) {
      assert PrefixMatches(id, pattern, y + 1);
      ScanFromSpec(id, pattern, y + 1);
      if exists k :: y <= k < |id| && k < |pattern| && pattern[k] == "#" && PrefixMatches(id, pattern, k) {
        var k :| y <= k < |id| && k < |pattern| && pattern[k] == "#" && PrefixMatches(id, pattern, k);
        assert k != y;
      }
    } else {
      assert ScanFrom(id, pattern, y) == Refused;
      forall k | y < k <= |id| && k <= |pattern|
        ensures !PrefixMatches(id, pattern, k)
      {
      }
    }
  }

  /** The walk and the level-wise reading agree, in both directions. */
  lemma PatternMatchesIffCovers(id: seq<string>, pattern: seq<string>)
    ensures PatternMatches(id, pattern) <==> Covers(id, pattern)
  {
    ScanFromSpec(id, pattern, 0);
  }

  /**
   * mqttPermissionCheck: a missing or non-array list (None) or an empty list is refused;
   * otherwise the patterns are tried in order, and the first that admits the id ends the check.
   */
  method MqttPermissionCheck(id: seq<string>, allowedTopics: Option<seq<seq<string>>>)
    returns (matched: bool)
    ensures matched == Permitted(id, allowedTopics)
  {
    if allowedTopics.None? || |allowedTopics.value| == 0 {
      return false;
    }
    var topics := allowedTopics.value;
    matched := false;
    for x := 0 to |topics|
      invariant !matched
      invariant forall j :: 0 <= j < x ==> !PatternMatches(id, topics[j])
    {
      var topic := topics[x];
      var innerMatch := true;
      for y := 0 to |id|
        invariant innerMatch && !matched
        invariant ScanFrom(id, topic, 0) == ScanFrom(id, topic, y)
      {
        var idElement := id[y];
        if y >= |topic| {
          // the id is deeper than the pattern
          innerMatch := false;
          break;
        }
        var subElement := topic[y];
        if subElement == "#" {
          matched := true;
          break;
        }
        if subElement == "+" {
          if idElement == "#" {
            innerMatch := false;
            break;
          }
          continue;
        }
        if subElement != idElement {
          innerMatch := false;
          break;
        }
      }
      if matched {
        break;
      }
      if innerMatch && |id| == |topic| {
        matched := true;
        break;
      }
    }
  }

  /*
   * Properties of the decision.
   */

  /** A missing or non-array list, and an empty list, refuse every id. */
  lemma NoPatternsRefuse(id: seq<string>)
    ensures !Permitted(id, None) && !Permitted(id, Some([]))
  {
  }

  /** The list is a disjunction: splitting it splits the decision. */
  lemma PermittedConcat(id: seq<string>, a: seq<seq<string>>, b: seq<seq<string>>)
    ensures Permitted(id, Some(a + b)) <==> Permitted(id, Some(a)) || Permitted(id, Some(b))
  {
    if Permitted(id, Some(a + b)) {
      var x :| 0 <= x < |a + b| && PatternMatches(id, (a + b)[x]);
      if x >= |a| {
        assert b[x - |a|] == (a + b)[x];
      }
    }
    if Permitted(id, Some(a)) {
      var x :| 0 <= x < |a| && PatternMatches(id, a[x]);
      assert (a + b)[x] == a[x];
    }
    if Permitted(id, Some(b)) {
      var x :| 0 <= x < |b| && PatternMatches(id, b[x]);
      assert (a + b)[|a| + x] == b[x];
    }
  }

  /** Reordering (or permuting) the allowed patterns never changes the decision. */
  lemma PermittedReorder(id: seq<string>, a: seq<seq<string>>, b: seq<seq<string>>)
    requires multiset(a) == multiset(b)
    ensures Permitted(id, Some(a)) == Permitted(id, Some(b))
  {
    if Permitted(id, Some(a)) {
      var x :| 0 <= x < |a| && PatternMatches(id, a[x]);
      assert a[x] in multiset(b);
      var z :| 0 <= z < |b| && b[z] == a[x];
    }
    if Permitted(id, Some(b)) {
      var x :| 0 <= x < |b| && PatternMatches(id, b[x]);
      assert b[x] in multiset(a);
      var z :| 0 <= z < |a| && a[z] == b[x];
    }
  }

  /**
   * Without `#`, a pattern admits exactly the ids of its own depth whose levels it
   * admits one by one; shallower and deeper ids are refused.
   */
  lemma NoMultiLevelExactDepth(id: seq<string>, pattern: seq<string>)
    requires forall j :: 0 <= j < |pattern| ==> pattern[j] != "#"
    ensures PatternMatches(id, pattern) <==>
      |id| == |pattern| && forall i :: 0 <= i < |id| ==> LevelMatches(pattern[i], id[i])
    ensures |id| != |pattern| ==> !PatternMatches(id, pattern)
  {
    PatternMatchesIffCovers(id, pattern);
  }

  /** A pattern `+` never admits an id level `#` (unless an earlier `#` already decided). */
  lemma SingleLevelRefusesMultiLevel(id: seq<string>, pattern: seq<string>, k: nat)
    requires k < |id| && k < |pattern|
    requires pattern[k] == "+" && id[k] == "#"
    requires forall j :: 0 <= j < k ==> pattern[j] != "#"
    ensures !PatternMatches(id, pattern)
  {
    PatternMatchesIffCovers(id, pattern);
    assert !LevelMatches(pattern[k], id[k]);
  }

  /**
   * A `#` at level `y` (the pattern's first) admits every id deeper than `y` whose first
   * `y` levels are admitted, whatever follows; an id that stops at `y` is refused.
   */
  lemma MultiLevelSuffix(id: seq<string>, pattern: seq<string>, y: nat)
    requires y < |pattern| && pattern[y] == "#"
    requires forall j :: 0 <= j < y ==> pattern[j] != "#"
    ensures PatternMatches(id, pattern) <==>
      |id| > y && forall i :: 0 <= i < y ==> LevelMatches(pattern[i], id[i])
    ensures |id| == y ==> !PatternMatches(id, pattern)
  {
    PatternMatchesIffCovers(id, pattern);
    if |id| > y && forall i :: 0 <= i < y ==> LevelMatches(pattern[i], id[i]) {
      assert PrefixMatches(id, pattern, y);
    }
    if Covers(id, pattern) {
      if exists m :: 0 <= m < |id| && m < |pattern| && pattern[m] == "#" && PrefixMatches(id, pattern, m) {
        var m :| 0 <= m < |id| && m < |pattern| && pattern[m] == "#" && PrefixMatches(id, pattern, m);
        assert m >= y;
        if m > y {
          assert !LevelMatches(pattern[y], id[y]);
        }
      }
    }
  }

  lemma {:induction false} ScanSelf(id: seq<string>, y: nat)
    requires y <= |id|
    ensures ScanFrom(id, id, y) != Refused
    decreases |id| - y
  {
    if y < |id| && id[y] != "#" {
      ScanSelf(id, y + 1);
    }
  }

  /** An id listed verbatim among the allowed patterns is permitted, wildcards included. */
  lemma VerbatimPermitted(id: seq<string>, allowed: seq<seq<string>>, x: nat)
    requires x < |allowed| && allowed[x] == id
    ensures Permitted(id, Some(allowed))
  {
    ScanSelf(id, 0);
    assert PatternMatches(id, allowed[x]);
  }

  /** The two patterns of the repository's own test suite. */
  const LibertyPatterns: seq<seq<string>> := [["liberty", "scott", "+", "+"], ["liberty", "testing", "#"]]

  /** The repository's test scenarios, decided by the model as the tests assert. */
  lemma LibertyScenarios()
    ensures !Permitted(["liberty", "scott", "#"], Some(LibertyPatterns))
    ensures !Permitted(["liberty", "scott"], Some(LibertyPatterns))
    ensures !Permitted(["liberty", "#"], Some(LibertyPatterns))
    ensures !Permitted(["liberty", "bill", "+"], Some(LibertyPatterns))
    ensures !Permitted(["liberty", "scott", "+"], Some(LibertyPatterns))
    ensures Permitted(["liberty", "scott", "+", "tmp"], Some(LibertyPatterns))
    ensures Permitted(["liberty", "scott", "hi", "tmp"], Some(LibertyPatterns))
    ensures !Permitted(["liberty", "scott", "hi", "tmp", "bad"], Some(LibertyPatterns))
    ensures !Permitted(["liberty", "scott", "tmp"], Some(LibertyPatterns))
    ensures Permitted(["liberty", "testing", "#"], Some(LibertyPatterns))
    ensures Permitted(["liberty", "testing", "cool"], Some(LibertyPatterns))
    ensures Permitted(["liberty", "testing", "cool", "cooler", "coolest"], Some(LibertyPatterns))
    ensures Permitted(["liberty", "testing", "cool", "#"], Some(LibertyPatterns))
    ensures !Permitted(["nogood", "testing", "cool", "#"], Some(LibertyPatterns))
  {
    var ps := LibertyPatterns;
    assert PatternMatches(["liberty", "scott", "+", "tmp"], ps[0]);
    assert PatternMatches(["liberty", "scott", "hi", "tmp"], ps[0]);
    assert PatternMatches(["liberty", "testing", "#"], ps[1]);
    assert PatternMatches(["liberty", "testing", "cool"], ps[1]);
    assert PatternMatches(["liberty", "testing", "cool", "cooler", "coolest"], ps[1]);
    assert PatternMatches(["liberty", "testing", "cool", "#"], ps[1]);
  }
}
