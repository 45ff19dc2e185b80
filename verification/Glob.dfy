/** The SMB directory-listing wildcard matcher: one pass with a single saved
    star, against the recursive meaning of `*` and `?`. */
module Glob {
  import opened Basics

  /** `p[i..]` matches `n[j..]`: `*` is any run, `?` any one character, and
      every other character is itself. */
  ghost predicate Matches(p: string, i: nat, n: string, j: nat)
    requires i <= |p| && j <= |n|
    decreases |p| - i, |n| - j
  {
    if i == |p| then j == |n|
    else if p[i] == '*' then
      Matches(p, i + 1, n, j) || (j < |n| && Matches(p, i, n, j + 1))
    else
      j < |n| && (p[i] == '?' || p[i] == n[j]) && Matches(p, i + 1, n, j + 1)
  }

  /** `p[i..i + len]` has no star and matches `n[j..j + len]` character by
      character. */
  ghost predicate Aligned(p: string, i: nat, n: string, j: nat, len: nat) {
    && i + len <= |p| && j + len <= |n|
    && forall k | i <= k < i + len :: p[k] != '*' && (p[k] == '?' || p[k] == n[k - i + j])
  }

  /** A star can give up what it ate. */
  lemma {:induction false} StarExtends(p: string, i: nat, n: string, j: nat, k: nat)
    requires i < |p| && p[i] == '*' && j <= k <= |n| && Matches(p, i, n, k)
    ensures Matches(p, i, n, j)
    decreases k - j
  {
    if j < k {
      StarExtends(p, i, n, j + 1, k);
    }
  }

  /** Some split point explains a match of a star. */
  lemma {:induction false} StarSplits(p: string, i: nat, n: string, j: nat) returns (k: nat)
    requires i < |p| && p[i] == '*' && j <= |n| && Matches(p, i, n, j)
    ensures j <= k <= |n| && Matches(p, i + 1, n, k)
    decreases |n| - j
  {
    if Matches(p, i + 1, n, j) {
      k := j;
    } else {
      k := StarSplits(p, i, n, j + 1);
    }
  }

  /** Star-free stretches are deterministic: a match of the rest from `(i, j)`
      is a match from `(i + len, j + len)`. */
  lemma {:induction false} PastStretch(p: string, i: nat, n: string, j: nat, len: nat)
    requires i + len <= |p| && j <= |n|
    requires forall k | i <= k < i + len :: p[k] != '*'
    requires Matches(p, i, n, j)
    ensures j + len <= |n| && Matches(p, i + len, n, j + len)
    decreases len
  {
    if len > 0 {
      PastStretch(p, i + 1, n, j + 1, len - 1);
    }
  }

  /** The saved star is enough. With the text after it aligned up to
      `(pi, ni)`, a second star at `pi` makes every later try of the first
      pointless. */
  lemma SecondStarWins(p: string, s: nat, n: string, sn: nat, pi: nat, ni: nat)
    requires s < pi < |p| && p[s] == '*' && p[pi] == '*'
    requires sn <= ni <= |n| && pi - s - 1 == ni - sn && Aligned(p, s + 1, n, sn, ni - sn)
    requires Matches(p, s, n, sn)
    ensures Matches(p, pi, n, ni)
  {
    var k := StarSplits(p, s, n, sn);
    var len := ni - sn;
    PastStretch(p, s + 1, n, k, len);
    StarExtends(p, pi, n, ni, k + len);
  }

  /** A mismatch at `(pi, ni)` rules out the star ending at `sn`. */
  lemma StarMustEatMore(p: string, s: nat, n: string, sn: nat, pi: nat, ni: nat)
    requires s < pi <= |p| && p[s] == '*'
    requires sn <= ni < |n| && pi - s - 1 == ni - sn && Aligned(p, s + 1, n, sn, ni - sn)
    requires pi < |p| ==> p[pi] != '*' && p[pi] != '?' && p[pi] != n[ni]
    requires Matches(p, s, n, sn)
    ensures Matches(p, s, n, sn + 1)
  {
    if Matches(p, s + 1, n, sn) {
      PastStretch(p, s + 1, n, sn, ni - sn);
    }
  }

  /** At the end of the name no later try of the star has room. */
  lemma NoRoomLeft(p: string, s: nat, n: string, sn: nat, pi: nat)
    requires s < pi <= |p| && p[s] == '*'
    requires sn <= |n| && pi - s - 1 == |n| - sn && Aligned(p, s + 1, n, sn, |n| - sn)
    requires Matches(p, s, n, sn)
    ensures Matches(p, pi, n, |n|)
  {
    var k := StarSplits(p, s, n, sn);
    PastStretch(p, s + 1, n, k, |n| - sn);
  }

  /** At the end of the name, the rest of the pattern matches iff it is stars. */
  lemma {:induction false} OnlyStarsLeft(p: string, i: nat, n: string)
    requires i <= |p|
    ensures Matches(p, i, n, |n|) <==> forall k | i <= k < |p| :: p[k] == '*'
    decreases |p| - i
  {
    if i < |p| {
      OnlyStarsLeft(p, i + 1, n);
    }
  }

  /** The loop, step for step: where it stands, and the last star with the
      name position its run ends at. */
  ghost predicate Scan(p: string, pi: nat, n: string, ni: nat, star: Option<nat>, starN: nat)
    requires pi <= |p| && starN <= ni <= |n| && (star.Some? ==> star.value < pi)
    decreases if star.Some? then |p| - star.value else |p| + 1, |n| - starN, |n| - ni
  {
    if ni == |n| then forall k | pi <= k < |p| :: p[k] == '*'
    else if pi < |p| && (p[pi] == '?' || p[pi] == n[ni]) then Scan(p, pi + 1, n, ni + 1, star, starN)
    else if pi < |p| && p[pi] == '*' then Scan(p, pi + 1, n, ni, Some(pi), ni)
    else star.Some? && Scan(p, star.value + 1, n, starN + 1, star, starN + 1)
  }

  /** Never a false yes, whatever the name holds. */
  lemma {:induction false} ScanSound(p: string, pi: nat, n: string, ni: nat, star: Option<nat>, starN: nat)
    requires pi <= |p| && starN <= ni <= |n|
    requires star.Some? ==> star.value < pi && p[star.value] == '*'
    requires Scan(p, pi, n, ni, star, starN)
    ensures Matches(p, pi, n, ni) || (star.Some? && Matches(p, star.value, n, starN))
    decreases if star.Some? then |p| - star.value else |p| + 1, |n| - starN, |n| - ni
  {
    if ni == |n| {
      OnlyStarsLeft(p, pi, n);
    } else if pi < |p| && (p[pi] == '?' || p[pi] == n[ni]) {
      ScanSound(p, pi + 1, n, ni + 1, star, starN);
      assert p[pi] == '*' && Matches(p, pi + 1, n, ni + 1) ==> Matches(p, pi, n, ni + 1);
    } else if pi < |p| && p[pi] == '*' {
      ScanSound(p, pi + 1, n, ni, Some(pi), ni);
    } else {
      ScanSound(p, star.value + 1, n, starN + 1, star, starN + 1);
      assert Matches(p, star.value + 1, n, starN + 1) ==> Matches(p, star.value, n, starN + 1);
    }
  }

  /** No false no, when the name or the pattern holds no star. */
  lemma {:induction false} ScanComplete(p: string, pi: nat, n: string, ni: nat, star: Option<nat>, starN: nat)
    requires '*' !in n || '*' !in p
    requires pi <= |p| && starN <= ni <= |n|
    requires star.None? ==> Matches(p, pi, n, ni)
    requires star.Some? ==>
               && star.value < pi && p[star.value] == '*' && Matches(p, star.value, n, starN)
               && pi - star.value - 1 == ni - starN && Aligned(p, star.value + 1, n, starN, ni - starN)
    ensures Scan(p, pi, n, ni, star, starN)
    decreases if star.Some? then |p| - star.value else |p| + 1, |n| - starN, |n| - ni
  {
    if ni == |n| {
      if star.Some? {
        NoRoomLeft(p, star.value, n, starN, pi);
      }
      OnlyStarsLeft(p, pi, n);
    } else if pi < |p| && (p[pi] == '?' || p[pi] == n[ni]) {
      ScanComplete(p, pi + 1, n, ni + 1, star, starN);
    } else if pi < |p| && p[pi] == '*' {
      if star.Some? {
        SecondStarWins(p, star.value, n, starN, pi, ni);
      }
      ScanComplete(p, pi + 1, n, ni, Some(pi), ni);
    } else if star.Some? {
      StarMustEatMore(p, star.value, n, starN, pi, ni);
      ScanComplete(p, star.value + 1, n, starN + 1, star, starN + 1);
    }
  }

  ghost predicate Exact(p: string, n: string) {
    Scan(p, 0, n, 0, None, 0) <==> Matches(p, 0, n, 0)
  }

  lemma ScanIsExact(p: string, n: string)
    requires '*' !in n || '*' !in p
    ensures Exact(p, n)
  {
    if Scan(p, 0, n, 0, None, 0) {
      ScanSound(p, 0, n, 0, None, 0);
    }
    if Matches(p, 0, n, 0) {
      ScanComplete(p, 0, n, 0, None, 0);
    }
  }

  /** A lone star is any run. */
  lemma {:induction false} StarMatchesAll(n: string, j: nat)
    requires j <= |n|
    ensures Matches("*", 0, n, j)
    decreases |n| - j
  {
    if j < |n| {
      StarMatchesAll(n, j + 1);
    } else {
      assert Matches("*", 1, n, j);
    }
  }

  /** `lower` is Unicode lowercasing, which can change lengths and leaves a star
      alone. The empty pattern and `*.*` are taken for any name. For every other
      pattern a yes is never false, and the answer is exactly the wildcard
      relation when the lowered name holds no star or the lowered pattern holds
      none. */
  method GlobMatch(pattern: string, name: string, lower: string -> string) returns (matches: bool)
    requires lower("*") == "*"
    ensures pattern == "" || pattern == "*.*" || pattern == "*" ==> matches
    ensures pattern != "" && pattern != "*.*" && matches ==> Matches(lower(pattern), 0, lower(name), 0)
    ensures pattern != "" && pattern != "*.*" && ('*' !in lower(name) || '*' !in lower(pattern))
            ==> (matches <==> Matches(lower(pattern), 0, lower(name), 0))
    ensures pattern != "" && pattern != "*.*" && pattern != "*" ==> (matches <==> Scan(lower(pattern), 0, lower(name), 0, None, 0))
  {
    if pattern == "" || pattern == "*" || pattern == "*.*" {
      StarMatchesAll(lower(name), 0);
      return true;
    }
    var p, n := lower(pattern), lower(name);
    if Scan(p, 0, n, 0, None, 0) {
      ScanSound(p, 0, n, 0, None, 0);
    }
    if '*' !in n || '*' !in p {
      ScanIsExact(p, n);
    }
    var pi, ni := 0, 0;
    var star: Option<nat>, starN := None, 0;
    while ni < |n|
      invariant 0 <= pi <= |p| && 0 <= starN <= ni <= |n| && (star.Some? ==> star.value < pi)
      invariant Scan(p, 0, n, 0, None, 0) <==> Scan(p, pi, n, ni, star, starN)
      decreases if star.Some? then |p| - star.value else |p| + 1, |n| - starN, |n| - ni
    {
      if pi < |p| && (p[pi] == '?' || p[pi] == n[ni]) {
        pi, ni := pi + 1, ni + 1;
      } else if pi < |p| && p[pi] == '*' {
        star, starN := Some(pi), ni;
        pi := pi + 1;
      } else if star.Some? {
        pi := star.value + 1;
        starN := starN + 1;
        ni := starN;
      } else {
        return false;
      }
    }
    ghost var rest := pi;
    while pi < |p| && p[pi] == '*'
      invariant rest <= pi <= |p| && forall k | rest <= k < pi :: p[k] == '*'
    {
      pi := pi + 1;
    }
    return pi == |p|;
  }

  /** With stars on both sides the answer can be a false no: the star of "*a"
      is spent on the literal star of "*ba". */
  lemma StarInNameCanHide()
    ensures Matches("*a", 0, "*ba", 0) && !Scan("*a", 0, "*ba", 0, None, 0)
  {
    assert Matches("*a", 1, "*ba", 2);
    StarExtends("*a", 0, "*ba", 0, 2);
    assert !Scan("*a", 1, "*ba", 1, None, 0);
  }

  // ---- when the answer is exact ----

  lemma {:induction false} LastStar(s: string) returns (u: nat)
    requires '*' in s
    ensures u < |s| && s[u] == '*' && '*' !in s[u + 1..]
  {
    u := |s| - 1;
    if s[u] != '*' {
      u := LastStar(s[..u]);
      assert s[u + 1..] == s[..|s| - 1][u + 1..] + [s[|s| - 1]];
    }
  }

  /** Equal text, stars included, is passed over without saving a star. */
  lemma {:induction false} ScanPassesEqual(p: string, n: string, i: nat, k: nat)
    requires i <= k <= |p| && k <= |n| && p[..k] == n[..k]
    ensures Scan(p, i, n, i, None, 0) <==> Scan(p, k, n, k, None, 0)
    decreases k - i
  {
    if i < k {
      assert p[..k][i] == n[..k][i];
      ScanPassesEqual(p, n, i + 1, k);
    }
  }

  /** With no star saved or left, only texts of one length can match. */
  lemma {:induction false} ScanNeedsLength(p: string, pi: nat, n: string, ni: nat)
    requires pi <= |p| && ni <= |n| && '*' !in p[pi..] && |p| - pi != |n| - ni
    ensures !Scan(p, pi, n, ni, None, 0)
    decreases |n| - ni
  {
    if pi < |p| {
      assert p[pi..][0] == p[pi] && p[pi..][1..] == p[pi + 1..];
      if ni < |n| && (p[pi] == '?' || p[pi] == n[ni]) {
        ScanNeedsLength(p, pi + 1, n, ni + 1);
      }
    }
  }

  /** Equal text in front never spoils a match. */
  lemma {:induction false} EqualMatches(p: string, i: nat, n: string, j: nat, len: nat)
    requires i + len <= |p| && j + len <= |n| && p[i..i + len] == n[j..j + len]
    requires Matches(p, i + len, n, j + len)
    ensures Matches(p, i, n, j)
    decreases len
  {
    if len > 0 {
      assert p[i] == p[i..i + len][0] == n[j..j + len][0] == n[j];
      assert p[i..i + len][1..] == p[i + 1..i + 1 + (len - 1)] && n[j..j + len][1..] == n[j + 1..j + 1 + (len - 1)];
      EqualMatches(p, i + 1, n, j + 1, len - 1);
      assert p[i] == '*' ==> Matches(p, i, n, j + 1);
    }
  }

  /** A pattern with a star misses the name that writes that pattern out with
      one more character behind its last star. */
  lemma PatternMisses(p: string) returns (n: string)
    requires '*' in p
    ensures Matches(p, 0, n, 0) && !Scan(p, 0, n, 0, None, 0)
  {
    var u := LastStar(p);
    n := p[..u + 1] + "?" + p[u + 1..];
    assert n[..u + 1] == p[..u + 1] && n[u + 2..] == p[u + 1..];
    ScanPassesEqual(p, n, 0, u + 1);
    ScanNeedsLength(p, u + 1, n, u + 1);
    var rest := |p| - u - 1;
    assert p[u + 1..u + 1 + rest] == n[u + 2..u + 2 + rest];
    EqualMatches(p, u + 1, n, u + 2, rest);
    StarExtends(p, u, n, u, u + 2);
    assert p[0..u] == p[..u + 1][..u] == n[..u + 1][..u] == n[0..u];
    EqualMatches(p, 0, n, 0, u);
  }

  /** A name with a star is missed by the pattern that writes it out with one
      more `?` behind its last star. */
  lemma NameIsMissed(n: string) returns (p: string)
    requires '*' in n
    ensures p != "" && p != "*" && p != "*.*"
    ensures Matches(p, 0, n, 0) && !Scan(p, 0, n, 0, None, 0)
  {
    var u := LastStar(n);
    p := n[..u + 1] + "?" + n[u + 1..];
    assert n[..u + 1] == p[..u + 1] && p[u + 2..] == n[u + 1..];
    assert p[u + 1..] == "?" + n[u + 1..];
    assert p[u + 1] == '?';
    ScanPassesEqual(p, n, 0, u + 1);
    ScanNeedsLength(p, u + 1, n, u + 1);
    var rest := |n| - u - 1;
    assert p[u + 2..u + 2 + rest] == n[u + 1..u + 1 + rest];
    EqualMatches(p, u + 2, n, u + 1, rest);
    assert Matches(p, u + 1, n, u);
    assert p[0..u] == p[..u + 1][..u] == n[..u + 1][..u] == n[0..u];
    EqualMatches(p, 0, n, 0, u);
  }

  /** The loop answers right about a pattern for every name exactly when
      the pattern holds no star. */
  lemma PatternIsExact(p: string)
    ensures (forall n: string :: Exact(p, n)) <==> '*' !in p
  {
    if '*' in p {
      var n := PatternMisses(p);
      assert !Exact(p, n);
    }
    forall n: string | '*' !in p
      ensures Exact(p, n)
    {
      ScanIsExact(p, n);
    }
  }

  /** It answers right about a name for every pattern it looks into exactly when
      the name holds no star. */
  lemma NameIsExact(n: string)
    ensures (forall p: string | p != "" && p != "*" && p != "*.*" :: Exact(p, n)) <==> '*' !in n
  {
    if '*' in n {
      var p := NameIsMissed(n);
      assert !Exact(p, n);
    }
    forall p: string | '*' !in n
      ensures Exact(p, n)
    {
      ScanIsExact(p, n);
    }
  }
}
