/**
 * The three JavaScript string operations the plugin relies on, over `string`:
 * `String.prototype.split` on one separator character, `Array.prototype.join`
 * with one separator character, and a global replace of a fixed substring by
 * literal text (the `/\/%u/g` and `/\/%c/g` rewrites), scanned left to right
 * without overlaps and without rescanning the inserted text. Unlike
 * `String.prototype.replace`, the replacement text is inserted verbatim: the `$&`,
 * `` $` ``, `$'` and `$$` patterns are not interpreted.
 */
module Strings {

  /** `s.split(d)`: never empty; an empty string gives `[""]`. */
  function Split(s: string, d: char): (parts: seq<string>)
    ensures |parts| >= 1
    ensures forall i :: 0 <= i < |parts| ==> d !in parts[i]
  {
    if |s| == 0 then [""]
    else
      var rest := Split(s[1..], d);
      if s[0] == d then [""] + rest
      else [[s[0]] + rest[0]] + rest[1..]
  }

  /** Every part preceded by the separator: the tail of `parts.join(d)`. */
  function JoinTail(parts: seq<string>, d: char): string
  {
    if |parts| == 0 then "" else [d] + (parts[0] + JoinTail(parts[1..], d))
  }

  /** `parts.join(d)`. */
  function Join(parts: seq<string>, d: char): string
  {
    if |parts| == 0 then "" else parts[0] + JoinTail(parts[1..], d)
  }

  /** `pat` occurs in `s` starting at index `i`. */
  predicate OccursAt(s: string, pat: string, i: int)
  {
    0 <= i && i + |pat| <= |s| && s[i..i + |pat|] == pat
  }

  /** `pat` occurs somewhere in `s`. */
  predicate Occurs(s: string, pat: string)
  {
    exists i :: 0 <= i <= |s| && OccursAt(s, pat, i)
  }

  /**
   * `s.replace(/pat/g, rep)` for a pattern without regular-expression operators and a
   * replacement text without `$` patterns, which JavaScript would expand.
   */
  function ReplaceAll(s: string, pat: string, rep: string): string
    requires |pat| > 0
    decreases |s|
  {
    if |s| < |pat| then s
    else if s[..|pat|] == pat then rep + ReplaceAll(s[|pat|..], pat, rep)
    else [s[0]] + ReplaceAll(s[1..], pat, rep)
  }

  predicate StartsWith(s: string, prefix: string)
  {
    |prefix| <= |s| && s[..|prefix|] == prefix
  }

  /** One level after a separator, as the rewrite of `[d] + tok` leaves it. */
  function SubstLevel(level: string, tok: string, rep: string): string
  {
    if StartsWith(level, tok) then rep + level[|tok|..] else level
  }

  function SubstEach(levels: seq<string>, tok: string, rep: string): (r: seq<string>)
    ensures |r| == |levels|
    ensures forall i :: 0 <= i < |r| ==> r[i] == SubstLevel(levels[i], tok, rep)
  {
    if |levels| == 0 then [] else [SubstLevel(levels[0], tok, rep)] + SubstEach(levels[1..], tok, rep)
  }

  /** A prefix free of the separator extends the first part of a split. */
  lemma {:induction false} SplitPrefix(x: string, y: string, d: char)
    requires d !in x
    ensures Split(x + y, d) == [x + Split(y, d)[0]] + Split(y, d)[1..]
  {
    if |x| > 0 {
      assert (x + y)[1..] == x[1..] + y;
      SplitPrefix(x[1..], y, d);
      assert [x[0]] + (x[1..] + Split(y, d)[0]) == x + Split(y, d)[0];
    } else {
      assert x + y == y;
      assert x + Split(y, d)[0] == Split(y, d)[0];
    }
  }

  lemma {:induction false} SplitJoinTail(x: string, tail: seq<string>, d: char)
    requires d !in x
    requires forall i :: 0 <= i < |tail| ==> d !in tail[i]
    ensures Split(x + JoinTail(tail, d), d) == [x] + tail
    decreases |tail|
  {
    if |tail| == 0 {
      SplitPrefix(x, "", d);
      assert x + "" == x;
    } else {
      var rest := tail[0] + JoinTail(tail[1..], d);
      SplitJoinTail(tail[0], tail[1..], d);
      assert JoinTail(tail, d) == [d] + rest;
      assert ([d] + rest)[1..] == rest;
      assert Split([d] + rest, d) == [""] + [tail[0]] + tail[1..];
      SplitPrefix(x, [d] + rest, d);
      assert x + "" == x;
      assert [tail[0]] + tail[1..] == tail;
    }
  }

  /** Round trip: splitting a join gives the parts back when no part holds the separator. */
  lemma SplitJoin(parts: seq<string>, d: char)
    requires |parts| >= 1
    requires forall i :: 0 <= i < |parts| ==> d !in parts[i]
    ensures Split(Join(parts, d), d) == parts
  {
    SplitJoinTail(parts[0], parts[1..], d);
    assert [parts[0]] + parts[1..] == parts;
  }

  /** Round trip: joining a split gives the string back. */
  lemma {:induction false} JoinSplit(s: string, d: char)
    ensures Join(Split(s, d), d) == s
  {
    if |s| > 0 {
      var rest := Split(s[1..], d);
      JoinSplit(s[1..], d);
      assert Join(rest, d) == s[1..];
      assert s == [s[0]] + s[1..];
      if s[0] == d {
        var parts := [""] + rest;
        assert parts[1..] == rest;
        assert Join(parts, d) == JoinTail(rest, d);
      } else {
        var parts := [[s[0]] + rest[0]] + rest[1..];
        assert parts[1..] == rest[1..];
        assert Join(parts, d) == [s[0]] + rest[0] + JoinTail(rest[1..], d);
      }
    }
  }

  /** Replacement never starts inside a prefix that lacks the pattern's first character. */
  lemma {:induction false} ReplaceAllSkip(x: string, y: string, pat: string, rep: string)
    requires |pat| > 0 && pat[0] !in x
    ensures ReplaceAll(x + y, pat, rep) == x + ReplaceAll(y, pat, rep)
  {
    if |x| > 0 {
      var s := x + y;
      assert s[1..] == x[1..] + y;
      ReplaceAllSkip(x[1..], y, pat, rep);
      if |s| < |pat| {
        assert ReplaceAll(y, pat, rep) == y;
        assert s == [x[0]] + (x[1..] + y);
      } else {
        assert s[..|pat|][0] == x[0];
        assert [x[0]] + (x[1..] + ReplaceAll(y, pat, rep)) == x + ReplaceAll(y, pat, rep);
      }
    } else {
      assert x + y == y;
    }
  }

  /** Where the pattern never occurs, replacement changes nothing. */
  lemma {:induction false} ReplaceAllAbsent(s: string, pat: string, rep: string)
    requires |pat| > 0 && !Occurs(s, pat)
    ensures ReplaceAll(s, pat, rep) == s
  {
    if |pat| <= |s| {
      assert s[0..0 + |pat|] == s[..|pat|];
      assert !OccursAt(s, pat, 0);
      if Occurs(s[1..], pat) {
        var i :| 0 <= i <= |s[1..]| && OccursAt(s[1..], pat, i);
        assert s[i + 1..i + 1 + |pat|] == s[1..][i..i + |pat|];
        assert OccursAt(s, pat, i + 1);
      }
      ReplaceAllAbsent(s[1..], pat, rep);
      assert s == [s[0]] + s[1..];
    }
  }

  /** A level that starts with `tok`: the rewrite fires at its separator. */
  lemma ReplaceAllLevelHit(level: string, rest: string, d: char, tok: string, rep: string)
    requires d !in level && |tok| > 0
    requires StartsWith(level, tok)
    ensures ReplaceAll([d] + (level + rest), [d] + tok, [d] + rep)
         == [d] + rep + (level[|tok|..] + ReplaceAll(rest, [d] + tok, [d] + rep))
  {
    var pat := [d] + tok;
    var s := [d] + (level + rest);
    assert s[..|pat|] == pat;
    assert s[|pat|..] == level[|tok|..] + rest;
    ReplaceAllSkip(level[|tok|..], rest, pat, [d] + rep);
  }

  /** The pattern cannot start at a separator whose level does not start with `tok`. */
  lemma NoMatchAtLevel(level: string, rest: string, d: char, tok: string)
    requires d !in tok && |tok| > 0
    requires rest == [] || rest[0] == d
    requires !StartsWith(level, tok)
    requires |tok| <= |level + rest|
    ensures (level + rest)[..|tok|] != tok
  {
    var t := level + rest;
    if |tok| <= |level| {
      assert level[..|tok|] == t[..|tok|];
    } else {
      assert t[|level|] == d;
    }
  }

  /** Where the pattern does not start at the first character, that character is kept. */
  lemma ReplaceAllKeepHead(c: char, t: string, pat: string, rep: string)
    requires |pat| > 0
    requires |pat| <= 1 + |t| ==> ([c] + t)[..|pat|] != pat
    ensures ReplaceAll([c] + t, pat, rep) == [c] + ReplaceAll(t, pat, rep)
  {
    assert ([c] + t)[1..] == t;
  }

  /** A level that does not start with `tok`: the separator and the level are kept. */
  lemma ReplaceAllLevelMiss(level: string, rest: string, d: char, tok: string, rep: string)
    requires d !in level && d !in tok && |tok| > 0
    requires rest == [] || rest[0] == d
    requires !StartsWith(level, tok)
    ensures ReplaceAll([d] + (level + rest), [d] + tok, [d] + rep)
         == [d] + (level + ReplaceAll(rest, [d] + tok, [d] + rep))
  {
    var pat := [d] + tok;
    if |pat| <= 1 + |level + rest| {
      NoMatchAtLevel(level, rest, d, tok);
      assert ([d] + (level + rest))[..|pat|] == [d] + (level + rest)[..|tok|];
      assert ([d] + (level + rest)[..|tok|])[1..] == (level + rest)[..|tok|];
    }
    ReplaceAllKeepHead(d, level + rest, pat, [d] + rep);
    ReplaceAllSkip(level, rest, pat, [d] + rep);
  }

  /** One separator-led level: the rewrite touches only that level's head. */
  lemma ReplaceAllLevel(level: string, rest: string, d: char, tok: string, rep: string)
    requires d !in level && d !in tok && |tok| > 0
    requires rest == [] || rest[0] == d
    ensures ReplaceAll([d] + (level + rest), [d] + tok, [d] + rep)
         == [d] + (SubstLevel(level, tok, rep) + ReplaceAll(rest, [d] + tok, [d] + rep))
  {
    if StartsWith(level, tok) {
      ReplaceAllLevelHit(level, rest, d, tok, rep);
      assert [d] + rep + (level[|tok|..] + ReplaceAll(rest, [d] + tok, [d] + rep))
          == [d] + ((rep + level[|tok|..]) + ReplaceAll(rest, [d] + tok, [d] + rep));
    } else {
      ReplaceAllLevelMiss(level, rest, d, tok, rep);
    }
  }

  lemma {:induction false} ReplaceAllTail(tail: seq<string>, d: char, tok: string, rep: string)
    requires d !in tok && |tok| > 0
    requires forall i :: 0 <= i < |tail| ==> d !in tail[i]
    ensures ReplaceAll(JoinTail(tail, d), [d] + tok, [d] + rep) == JoinTail(SubstEach(tail, tok, rep), d)
  {
    if |tail| > 0 {
      var rest := JoinTail(tail[1..], d);
      ReplaceAllTail(tail[1..], d, tok, rep);
      ReplaceAllLevel(tail[0], rest, d, tok, rep);
      assert SubstEach(tail, tok, rep)[1..] == SubstEach(tail[1..], tok, rep);
    }
  }

  /**
   * Rewriting `[d] + tok` over a joined path rewrites the head of every level
   * after the first and nothing else, since a separator never occurs inside a level.
   */
  lemma ReplaceAllOverLevels(levels: seq<string>, d: char, tok: string, rep: string)
    requires |levels| >= 1 && d !in tok && |tok| > 0
    requires forall i :: 0 <= i < |levels| ==> d !in levels[i]
    ensures ReplaceAll(Join(levels, d), [d] + tok, [d] + rep)
         == Join([levels[0]] + SubstEach(levels[1..], tok, rep), d)
  {
    ReplaceAllTail(levels[1..], d, tok, rep);
    ReplaceAllSkip(levels[0], JoinTail(levels[1..], d), [d] + tok, [d] + rep);
    assert ([levels[0]] + SubstEach(levels[1..], tok, rep))[1..] == SubstEach(levels[1..], tok, rep);
  }
}
