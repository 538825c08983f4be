/** Colon-separated scopes and the star patterns that match them. */
module StarScopes {
  const COLON := ':'

  /** strings.Split(s, ":") */
  function Split(s: string): (parts: seq<string>)
    ensures |parts| > 0
    decreases |s|
  {
    if s == "" then [""]
    else
      var rest := Split(s[1..]);
      if s[0] == COLON then [""] + rest else [[s[0]] + rest[0]] + rest[1..]
  }

  function Join(parts: seq<string>): string
    requires |parts| > 0
    decreases |parts|
  {
    if |parts| == 1 then parts[0] else parts[0] + [COLON] + Join(parts[1..])
  }

  lemma {:induction false} JoinSplit(s: string)
    ensures Join(Split(s)) == s
    decreases |s|
  {
    if s != "" {
      JoinSplit(s[1..]);
      var rest := Split(s[1..]);
      if s[0] == COLON {
        assert ([""] + rest)[1..] == rest;
        assert "" + [COLON] + Join(rest) == s;
      } else {
        var parts := [[s[0]] + rest[0]] + rest[1..];
        assert parts[1..] == rest[1..];
        assert s == [s[0]] + s[1..];
        if |rest| > 1 {
          assert [s[0]] + rest[0] + [COLON] + Join(rest[1..]) == [s[0]] + (rest[0] + [COLON] + Join(rest[1..]));
        }
      }
    }
  }

  /** The parts hold no colon; with JoinSplit, they are what stands between the colons. */
  lemma {:induction false} PartsHaveNoColon(s: string)
    ensures forall part :: part in Split(s) ==> COLON !in part
    decreases |s|
  {
    if s != "" {
      PartsHaveNoColon(s[1..]);
      var rest := Split(s[1..]);
      assert rest[0] in rest;
      assert forall part :: part in rest[1..] ==> part in rest;
    }
  }

  predicate IsStar(part: string) {
    part == "*" || part == "**"
  }

  /** scopeHasStarMatch */
  predicate HasStar(scope: string) {
    exists i :: 0 <= i < |Split(scope)| && IsStar(Split(scope)[i])
  }

  /** What a pattern means: a part stands for itself, "*" for one part, a final "**" for what is left. */
  predicate PartsMatch(pattern: seq<string>, parts: seq<string>)
    decreases |pattern|
  {
    if pattern == [] then parts == []
    else if pattern[0] == "**" then |pattern| == 1
    else parts != [] && (pattern[0] == "*" || pattern[0] == parts[0]) && PartsMatch(pattern[1..], parts[1..])
  }

  predicate Matches(pattern: string, s: string) {
    PartsMatch(Split(pattern), Split(s))
  }

  method ScopeHasStarMatch(scope: string) returns (r: bool)
    ensures r == HasStar(scope)
  {
    var parts := Split(scope);
    for i := 0 to |parts|
      invariant forall k :: 0 <= k < i ==> !IsStar(parts[k])
    {
      if IsStar(parts[i]) {
        return true;
      }
    }
    return false;
  }

  /** StarMatchString */
  method StarMatchString(pattern: string, s: string) returns (r: bool)
    ensures r == Matches(pattern, s)
  {
    var patternParts, stringParts := Split(pattern), Split(s);
    var pLen, sLen := |patternParts|, |stringParts|;
    for i := 0 to pLen
      invariant i <= sLen && PartsMatch(patternParts[i..], stringParts[i..]) == Matches(pattern, s)
    {
      assert patternParts[i..][1..] == patternParts[i + 1..];
      if patternParts[i] == "**" {
        return i == pLen - 1;
      }
      if i >= sLen {
        return false;
      }
      assert stringParts[i..][1..] == stringParts[i + 1..];
      if patternParts[i] != "*" && patternParts[i] != stringParts[i] {
        return false;
      }
    }
    return pLen == sLen;
  }

  lemma {:induction false} PlainPartsMatch(pattern: seq<string>, parts: seq<string>)
    requires forall i :: 0 <= i < |pattern| ==> !IsStar(pattern[i])
    ensures PartsMatch(pattern, parts) <==> pattern == parts
    decreases |pattern|
  {
    if pattern != [] {
      assert !IsStar(pattern[0]);
      if parts != [] {
        PlainPartsMatch(pattern[1..], parts[1..]);
        assert pattern == [pattern[0]] + pattern[1..] && parts == [parts[0]] + parts[1..];
      }
    }
  }

  /** Part by part: without "**" a pattern matches strings of as many parts, each the same or under a
      "*"; a "**" in last place matches whatever follows, nothing included; one elsewhere ruins the
      pattern. `d` is where the first "**" stands. */
  lemma {:induction false} PartsMatchIff(pattern: seq<string>, parts: seq<string>, d: nat)
    requires d <= |pattern| && (forall i :: 0 <= i < d ==> pattern[i] != "**")
    requires d < |pattern| ==> pattern[d] == "**"
    ensures PartsMatch(pattern, parts) <==>
              && (if d == |pattern| then |parts| == d else d == |pattern| - 1 && d <= |parts|)
              && forall i :: 0 <= i < d && i < |parts| ==> pattern[i] == "*" || pattern[i] == parts[i]
    decreases |pattern|
  {
    if d > 0 && parts != [] {
      var p, q := pattern[1..], parts[1..];
      PartsMatchIff(p, q, d - 1);
      assert forall i :: 0 < i < |pattern| ==> pattern[i] == p[i - 1];
      assert forall i :: 0 < i < |parts| ==> parts[i] == q[i - 1];
    }
  }

  /** A scope without stars matches exactly itself. */
  lemma PlainMatchesItself(pattern: string, s: string)
    requires !HasStar(pattern)
    ensures Matches(pattern, s) <==> pattern == s
  {
    PlainPartsMatch(Split(pattern), Split(s));
    JoinSplit(pattern);
    JoinSplit(s);
  }
}
