/**
 What a search that commits to first occurrences finds of one pattern, with any number of
 wildcards: the urls the pattern matches with every gap as short as it can be.  And exactly
 for which patterns these are all the urls it matches.
 */
module ShortestGaps {
  import opened Common
  import opened RouteTrie
  import opened RouteRefinement
  import opened RouteMeaning
  import opened HostReversal

  /** The literal that `q` starts with. */
  ghost function Front(q: seq<byte>): (f: seq<byte>)
    ensures f <= q && LiteralBytes(f)
    ensures |f| < |q| ==> IsWild(q[|f|])
  {
    if q == [] || IsWild(q[0]) then [] else [q[0]] + Front(q[1..])
  }

  /** `f` occurs at `k`, and nowhere before. */
  ghost predicate FirstAt(u: seq<byte>, f: seq<byte>, k: int) {
    OccursAt(u, f, k) && forall i :: 0 <= i < k ==> !OccursAt(u, f, i)
  }

  /** Pattern `q` matches `u` with every inner wildcard as short as the literal behind it allows. */
  ghost predicate Shortest(q: seq<byte>, u: seq<byte>)
    decreases |q|
  {
    if q == [] then
      u == []
    else if !IsWild(q[0]) then
      u != [] && u[0] == q[0] && Shortest(q[1..], u[1..])
    else if |q| == 1 then
      u != []
    else
      exists k :: Gap(q[0], u, k) && FirstAt(u, Front(q[1..]), k) && Shortest(q[1..], u[k..])
  }

  lemma {:induction false} ShortestMatches(q: seq<byte>, u: seq<byte>)
    requires Shortest(q, u)
    ensures Matches(q, u)
    decreases |q|
  {
    if q != [] {
      if !IsWild(q[0]) {
        ShortestMatches(q[1..], u[1..]);
      } else if |q| > 1 {
        var k :| Gap(q[0], u, k) && FirstAt(u, Front(q[1..]), k) && Shortest(q[1..], u[k..]);
        ShortestMatches(q[1..], u[k..]);
      }
    }
  }

  lemma {:induction false} LiteralShortest(f: seq<byte>, w: seq<byte>, u: seq<byte>)
    requires LiteralBytes(f)
    ensures Shortest(f + w, u) <==> f <= u && Shortest(w, u[|f|..])
    decreases |f|
  {
    if f == [] {
      assert f + w == w && u[0..] == u;
    } else {
      assert (f + w)[1..] == f[1..] + w;
      if u != [] {
        LiteralShortest(f[1..], w, u[1..]);
        if |f| <= |u| {
          assert u[1..][|f| - 1..] == u[|f|..];
        }
        assert f <= u <==> f[0] == u[0] && f[1..] <= u[1..];
      }
    }
  }

  // ---------------------------------------------------------------- one wildcard and its literal

  /** Pattern `w`, `f`, `rest`: a wildcard, a literal, and nothing or a wildcard. */
  ghost predicate Piece(w: byte, f: seq<byte>, rest: seq<byte>) {
    IsWild(w) && f != [] && LiteralBytes(f) && (rest != [] ==> IsWild(rest[0]))
  }

  lemma {:induction false} FrontIs(f: seq<byte>, rest: seq<byte>)
    requires LiteralBytes(f) && (rest != [] ==> IsWild(rest[0]))
    ensures Front(f + rest) == f
    decreases |f|
  {
    if f == [] {
      assert f + rest == rest;
    } else {
      assert (f + rest)[1..] == f[1..] + rest;
      FrontIs(f[1..], rest);
    }
  }

  /** Behind the wildcard `f` stands at its first occurrence, or not at all. */
  lemma ShortestAt(w: byte, f: seq<byte>, rest: seq<byte>, u: seq<byte>, k: nat)
    requires Piece(w, f, rest) && FirstAt(u, f, k)
    ensures Shortest([w] + f + rest, u) <==> Gap(w, u, k) && Shortest(rest, u[k + |f|..])
  {
    var q := [w] + f + rest;
    assert q[1..] == f + rest;
    FrontIs(f, rest);
    LiteralShortest(f, rest, u[k..]);
    assert u[k..][..|f|] == u[k..k + |f|] && u[k..][|f|..] == u[k + |f|..];
    hide Shortest;
    assert Shortest(q, u) <==> exists j :: Gap(w, u, j) && FirstAt(u, f, j) && Shortest(f + rest, u[j..]) by {
      ShortestUnfolds(q, u);
    }
    assert forall j :: FirstAt(u, f, j) ==> j == k;
  }

  lemma ShortestUnfolds(q: seq<byte>, u: seq<byte>)
    requires |q| > 1 && IsWild(q[0])
    ensures Shortest(q, u) <==>
            exists k :: Gap(q[0], u, k) && FirstAt(u, Front(q[1..]), k) && Shortest(q[1..], u[k..])
  {
  }

  lemma ShortestSomewhere(w: byte, f: seq<byte>, rest: seq<byte>, u: seq<byte>) returns (k: int)
    requires Piece(w, f, rest) && Shortest([w] + f + rest, u)
    ensures 0 <= k && FirstAt(u, f, k)
  {
    assert ([w] + f + rest)[1..] == f + rest;
    FrontIs(f, rest);
    k :| Gap(w, u, k) && FirstAt(u, f, k) && Shortest(f + rest, u[k..]);
  }

  /** The pattern matches with some gap. */
  lemma MatchesAt(w: byte, f: seq<byte>, rest: seq<byte>, u: seq<byte>) returns (k: int)
    requires Piece(w, f, rest) && Matches([w] + f + rest, u)
    ensures Gap(w, u, k) && OccursAt(u, f, k) && Matches(rest, u[k + |f|..])
    ensures 0 <= k <= |u| - |f|
  {
    assert ([w] + f + rest)[1..] == f + rest;
    k :| Gap(w, u, k) && Matches(f + rest, u[k..]);
    LiteralPrefix(f, rest, u[k..]);
    assert u[k..][..|f|] == u[k..k + |f|] && u[k..][|f|..] == u[k + |f|..];
  }

  lemma MatchesWith(w: byte, f: seq<byte>, rest: seq<byte>, u: seq<byte>, k: nat)
    requires Piece(w, f, rest) && Gap(w, u, k) && OccursAt(u, f, k) && Matches(rest, u[k + |f|..])
    ensures Matches([w] + f + rest, u)
  {
    LiteralPrefix(f, rest, u[k..]);
    assert u[k..][..|f|] == u[k..k + |f|] && u[k..][|f|..] == u[k + |f|..];
    GapPrefix(w, f + rest, u, k);
    assert [w] + (f + rest) == [w] + f + rest;
  }

  lemma {:induction false} FirstOccurrence(u: seq<byte>, f: seq<byte>, k: nat) returns (i: nat)
    requires OccursAt(u, f, k)
    ensures i <= k && FirstAt(u, f, i)
    decreases k
  {
    if j :| 0 <= j < k && OccursAt(u, f, j) {
      i := FirstOccurrence(u, f, j);
    } else {
      i := k;
    }
  }

  // ---------------------------------------------------------------- when every match is found

  /** The condition from the first wildcard on, read from left to right; `greedy` tells that a
      `**` has been passed. */
  ghost predicate Fine(greedy: bool, q: seq<byte>)
    requires q != [] ==> IsWild(q[0])
    decreases |q|
  {
    if |q| <= 1 then true
    else
      var f := Front(q[1..]);
      var rest := q[1 + |f|..];
      && (greedy && q[0] == STAR ==> f == [SLASH])
      && if rest == [] then q[0] == STAR && !greedy && SLASH in f else Fine(greedy || q[0] == GREEDY, rest)
  }

  /** The pattern falls apart behind its first wildcard. */
  lemma Pieces(q: seq<byte>) returns (w: byte, f: seq<byte>, rest: seq<byte>)
    requires |q| > 1 && IsWild(q[0]) && NoAdjacentWildcards(q)
    ensures Piece(w, f, rest) && q == [w] + f + rest && NoAdjacentWildcards(rest)
    ensures w == q[0] && f == Front(q[1..]) && rest == q[1 + |f|..]
    ensures 0 !in q ==> Request(f) && 0 !in rest
  {
    w, f := q[0], Front(q[1..]);
    rest := q[1 + |f|..];
    assert q[1..][0] == q[1];
    assert q[1..][..|f|] == f;
    forall i | 0 < i < |rest| ensures !(IsWild(rest[i - 1]) && IsWild(rest[i])) {
      assert rest[i] == q[1 + |f| + i] && rest[i - 1] == q[|f| + i];
    }
  }

  lemma FineStep(greedy: bool, w: byte, f: seq<byte>, rest: seq<byte>)
    requires Piece(w, f, rest)
    ensures Fine(greedy, [w] + f + rest) <==>
            && (greedy && w == STAR ==> f == [SLASH])
            && if rest == [] then w == STAR && !greedy && SLASH in f else Fine(greedy || w == GREEDY, rest)
  {
    var q := [w] + f + rest;
    assert q[1..] == f + rest && q[1 + |f|..] == rest;
    FrontIs(f, rest);
  }

  lemma FewIsFine(greedy: bool, q: seq<byte>)
    requires |q| <= 1 && (q != [] ==> IsWild(q[0]))
    ensures Fine(greedy, q) && StarsAlone(greedy, q) && EndsWell(greedy, q)
  {
  }

  /** The search stands at the start of `s + t`, where the pattern's match goes on with `t`: it
      is ahead by `s`, which holds no '/' unless a `**` has been passed. */
  lemma {:induction false} Early(greedy: bool, q: seq<byte>, s: seq<byte>, t: seq<byte>)
    requires (q != [] ==> IsWild(q[0])) && NoAdjacentWildcards(q) && Fine(greedy, q) && Matches(q, t)
    requires greedy || SLASH !in s
    requires q == [] ==> s == []
    ensures Shortest(q, s + t)
    decreases |q|
  {
    hide Shortest, Matches, OccursAt, Fine;
    if |q| <= 1 {
      ShortEnd(q, s, t);
    } else {
      var w, f, rest := Pieces(q);
      FineStep(greedy, w, f, rest);
      var k := MatchesAt(w, f, rest, t);
      var i, s2 := Commit(greedy, w, f, rest, s, t, k);
      if rest == [] {
        ShortEnd(rest, s2, t[k + |f|..]);
      } else {
        Early(greedy || w == GREEDY, rest, s2, t[k + |f|..]);
      }
      ShortestAt(w, f, rest, s + t, i);
    }
  }

  /** The search commits to the first occurrence of `f`, at `i`, and is then ahead by `s2`. */
  lemma Commit(greedy: bool, w: byte, f: seq<byte>, rest: seq<byte>, s: seq<byte>, t: seq<byte>, k: nat)
    returns (i: nat, s2: seq<byte>)
    requires Piece(w, f, rest) && Gap(w, t, k) && OccursAt(t, f, k)
    requires (greedy || SLASH !in s) && (greedy && w == STAR ==> f == [SLASH])
    requires rest == [] ==> w == STAR && !greedy && SLASH in f
    ensures FirstAt(s + t, f, i) && Gap(w, s + t, i) && (s + t)[i + |f|..] == s2 + t[k + |f|..]
    ensures greedy || w == GREEDY || SLASH !in s2
    ensures rest == [] ==> s2 == []
  {
    var u, n := s + t, |s| + k;
    OccursBehind(f, s, t, k);
    i := FirstOccurrence(u, f, n);
    s2 := u[i + |f|..n + |f|];
    GapHolds(greedy, w, f, s, t, k, i);
    StillAhead(greedy, w, f, s, t, k, i);
    if rest == [] {
      Aligned(f, s, t, k, i);
    }
  }

  lemma ShortEnd(q: seq<byte>, s: seq<byte>, t: seq<byte>)
    requires |q| <= 1 && (q != [] ==> IsWild(q[0])) && Matches(q, t) && (q == [] ==> s == [])
    ensures Shortest(q, s + t)
  {
  }

  lemma OccursBehind(f: seq<byte>, s: seq<byte>, t: seq<byte>, k: nat)
    requires OccursAt(t, f, k)
    ensures OccursAt(s + t, f, |s| + k)
  {
    assert (s + t)[|s| + k..|s| + k + |f|] == t[k..k + |f|];
  }

  /** Up to where the match has `f` there is no '/', as long as only `*` were passed. */
  lemma NoSlashBetween(s: seq<byte>, t: seq<byte>, k: nat)
    requires k <= |t| && SLASH !in s && SLASH !in t[..k]
    ensures forall j :: 0 <= j < |s| + k ==> (s + t)[j] != SLASH
  {
    forall j | 0 <= j < |s| + k ensures (s + t)[j] != SLASH {
      if j >= |s| {
        assert (s + t)[j] == t[..k][j - |s|];
      }
    }
  }

  /** A literal with a '/' behind a `*` can stand at one place only. */
  lemma Aligned(f: seq<byte>, s: seq<byte>, t: seq<byte>, k: nat, i: nat)
    requires OccursAt(t, f, k) && FirstAt(s + t, f, i)
    requires SLASH !in s && SLASH !in t[..k] && SLASH in f
    ensures i == |s| + k
  {
    hide OccursAt, FirstIndex;
    var u, n, m := s + t, |s| + k, FirstIndex(f, SLASH);
    assert f[..|f|] == f;
    PrefixAt(t, f, k);
    NoSlashBetween(s, t, k);
    OccursBehind(f, s, t, k);
    PrefixAt(u, f, n);
    assert u[0..] == u;
    NoSlashUpTo(f, u, 0, n, m);
    OnlyOccurrence(f, u, 0, n, m);
  }

  lemma PrefixAt(u: seq<byte>, f: seq<byte>, k: nat)
    requires OccursAt(u, f, k)
    ensures k + |f| <= |u| && f <= u[k..]
  {
    assert u[k..][..|f|] == u[k..k + |f|];
  }

  /** The gap up to the first occurrence may be skipped. */
  lemma GapHolds(greedy: bool, w: byte, f: seq<byte>, s: seq<byte>, t: seq<byte>, k: nat, i: nat)
    requires IsWild(w) && Gap(w, t, k) && OccursAt(t, f, k) && FirstAt(s + t, f, i) && i <= |s| + k
    requires (greedy || SLASH !in s) && (greedy && w == STAR ==> f == [SLASH])
    ensures Gap(w, s + t, i)
  {
    var u := s + t;
    if w == STAR {
      if greedy {
        forall j | 0 <= j < i ensures u[..i][j] != SLASH {
          assert u[j..j + 1] == [u[j]];
          assert !OccursAt(u, f, j);
        }
      } else {
        NoSlashBetween(s, t, k);
      }
    }
  }

  /** As long as only `*` were passed the search stays ahead by no '/'. */
  lemma StillAhead(greedy: bool, w: byte, f: seq<byte>, s: seq<byte>, t: seq<byte>, k: nat, i: nat)
    requires IsWild(w) && Gap(w, t, k) && OccursAt(t, f, k) && FirstAt(s + t, f, i) && i <= |s| + k
    requires greedy || SLASH !in s
    ensures greedy || w == GREEDY || SLASH !in (s + t)[i + |f|..|s| + k + |f|]
  {
    if !greedy && w == STAR {
      var u, n := s + t, |s| + k;
      if SLASH in f {
        Aligned(f, s, t, k, i);
      } else {
        NoSlashBetween(s, t, k);
        OccursBehind(f, s, t, k);
        forall j | i + |f| <= j < n + |f| ensures u[j] != SLASH {
          assert j >= n ==> u[n..n + |f|][j - n] == u[j];
        }
      }
    }
  }

  // ---------------------------------------------------------------- when some match is missed

  /** What a pattern matches with all gaps empty. */
  lemma {:induction false} Plainest(q: seq<byte>) returns (u: seq<byte>)
    requires 0 !in q
    ensures Request(u) && Matches(q, u)
    decreases |q|
  {
    if q == [] {
      u := [];
    } else if !IsWild(q[0]) {
      u := Plainest(q[1..]);
      u := [q[0]] + u;
    } else if |q| == 1 {
      u := [SLASH];
    } else {
      u := Plainest(q[1..]);
      assert u[0..] == u && [q[0]] + q[1..] == q;
      GapPrefix(q[0], q[1..], u, 0);
    }
  }

  /** A url whose first '/' comes before `f` can stand: behind a `*` it blocks `f`. */
  ghost function Blocker(f: seq<byte>): seq<byte> {
    if |f| < 2 || f[0] != SLASH then [SLASH]
    else [SLASH, if f[1] == SLASH then DOT else SLASH]
  }

  lemma NotBehindBlocker(f: seq<byte>, z: seq<byte>, k: nat)
    requires f != [] && f != [SLASH] && OccursAt(Blocker(f) + z, f, k)
    ensures !Gap(STAR, Blocker(f) + z, k)
  {
    var u := Blocker(f) + z;
    assert u[k..k + |f|][0] == u[k] && (|f| > 1 ==> u[k..k + |f|][1] == u[k + 1]);
    assert k > 0;
    assert u[..k][0] == SLASH;
  }

  lemma Blocked(f: seq<byte>, rest: seq<byte>, z: seq<byte>)
    requires Piece(STAR, f, rest) && f != [SLASH]
    ensures !Shortest([STAR] + f + rest, Blocker(f) + z)
  {
    hide Shortest, Blocker;
    if Shortest([STAR] + f + rest, Blocker(f) + z) {
      var k := ShortestSomewhere(STAR, f, rest, Blocker(f) + z);
      ShortestAt(STAR, f, rest, Blocker(f) + z, k);
      NotBehindBlocker(f, z, k);
    }
  }

  /** When the url starts with `f`, the wildcard in front of it covers nothing. */
  lemma AtOnce(w: byte, f: seq<byte>, rest: seq<byte>, z: seq<byte>)
    requires Piece(w, f, rest)
    ensures Shortest([w] + f + rest, f + z) <==> Shortest(rest, z)
    ensures Matches(rest, z) ==> Matches([w] + f + rest, f + z)
  {
    hide Shortest, Matches;
    var u := f + z;
    assert u[0..0 + |f|] == f && u[0 + |f|..] == z;
    ShortestAt(w, f, rest, u, 0);
    if Matches(rest, z) {
      MatchesWith(w, f, rest, u, 0);
    }
  }

  /** Behind a `**` and its literal: `x` and the literal `g` once more in front of a match `y` of
      the rest, and the search, which has stopped at the first `g`, is stuck. */
  lemma {:induction false} Stuck(g: seq<byte>, q: seq<byte>) returns (x: seq<byte>, y: seq<byte>)
    requires (q != [] ==> IsWild(q[0])) && NoAdjacentWildcards(q) && 0 !in q && Request(g) && !Fine(true, q)
    ensures Request(x) && Request(y) && Matches(q, y) && !Shortest(q, x + g + y)
    decreases |q|
  {
    hide Shortest, Matches, Fine, NoAdjacentWildcards, Front;
    if |q| <= 1 {
      FewIsFine(true, q);
      return;
    }
    var w, f, rest := Pieces(q);
    FineStep(true, w, f, rest);
    if w == STAR && f != [SLASH] {
      x := Blocker(f);
      y := Plainest(q);
      Blocked(f, rest, g + y);
      assert x + (g + y) == x + g + y;
    } else if rest == [] {
      x, y := f, f;
      AtOnce(w, f, rest, g + f);
      AtOnce(w, f, rest, []);
      EmptyRest(g + f);
      assert x + g + y == f + (g + f) && f + [] == f;
    } else {
      x, y := Stuck(g + f, rest);
      AtOnce(w, f, rest, x + (g + f) + y);
      AtOnce(w, f, rest, y);
      assert (f + x) + g + (f + y) == f + (x + (g + f) + y);
      x, y := f + x, f + y;
    }
  }

  lemma EmptyRest(z: seq<byte>)
    ensures Shortest([], z) <==> z == []
    ensures Matches([], [])
  {
  }

  /** A url that is matched with one gap and missed with the shortest. */
  lemma {:induction false} Missed(q: seq<byte>) returns (u: seq<byte>)
    requires (q != [] ==> IsWild(q[0])) && NoAdjacentWildcards(q) && 0 !in q && !Fine(false, q)
    ensures Request(u) && Matches(q, u) && !Shortest(q, u)
    decreases |q|
  {
    hide Shortest, Matches, Fine, NoAdjacentWildcards, Front;
    if |q| <= 1 {
      FewIsFine(false, q);
      return;
    }
    var w, f, rest := Pieces(q);
    FineStep(false, w, f, rest);
    if rest == [] {
      u := f + f;
      AtOnce(w, f, rest, f);
      EmptyRest(f);
      assert u[|f|..|f| + |f|] == f && u[..|f|] == f && u[|f| + |f|..] == [];
      MatchesWith(w, f, rest, u, |f|);
    } else if w == STAR {
      u := Missed(rest);
      AtOnce(w, f, rest, u);
      u := f + u;
    } else {
      var x, y := Stuck(f, rest);
      u := f + (x + f + y);
      AtOnce(w, f, rest, x + f + y);
      var k := |f| + |x|;
      assert u[k..k + |f|] == f && u[k + |f|..] == y;
      MatchesWith(w, f, rest, u, k);
    }
  }

  // ---------------------------------------------------------------- the condition, read off the pattern

  /** From `j` on there is a '/', and then a wildcard or nothing. */
  ghost predicate SlashAlone(q: seq<byte>, j: int) {
    0 <= j < |q| && q[j] == SLASH && (j + 1 < |q| ==> IsWild(q[j + 1]))
  }

  /** Behind the last wildcard there is a '/'. */
  ghost predicate SlashAtEnd(q: seq<byte>) {
    exists j :: 0 <= j < |q| && q[j] == SLASH && LiteralBytes(q[j..])
  }

  /** If at `i` there is a `*` that something follows, behind a `**`, it has exactly "/" behind it. */
  ghost predicate StarAlone(greedy: bool, q: seq<byte>, i: int) {
    0 <= i < |q| - 1 && q[i] == STAR && (greedy || GREEDY in q[..i]) ==> SlashAlone(q, i + 1)
  }

  ghost predicate StarsAlone(greedy: bool, q: seq<byte>) {
    forall i :: StarAlone(greedy, q, i)
  }

  /** The pattern ends with a wildcard, or has no `**` and a '/' behind its last wildcard. */
  ghost predicate EndsWell(greedy: bool, q: seq<byte>) {
    q == [] || IsWild(q[|q| - 1]) || (!greedy && GREEDY !in q && SlashAtEnd(q))
  }

  /** The patterns of which every match is found. */
  ghost predicate AllFound(q: seq<byte>) {
    StarsAlone(false, q) && (EndsWell(false, q) || LiteralBytes(q))
  }

  lemma StarBehind(greedy: bool, w: byte, f: seq<byte>, rest: seq<byte>, i: int)
    requires Piece(w, f, rest)
    ensures var q := [w] + f + rest;
            StarAlone(greedy, q, i) <==>
            if i == 0 then greedy && w == STAR ==> f == [SLASH]
            else StarAlone(greedy || w == GREEDY, rest, i - 1 - |f|)
  {
    var q := [w] + f + rest;
    var n := 1 + |f|;
    if i == 0 {
      assert q[1] == f[0] && (|f| > 1 ==> q[2] == f[1]);
      assert |f| == 1 ==> q[2..] == rest;
    } else if 0 < i < n {
      assert q[i] == f[i - 1];
    } else if n <= i < |q| {
      assert q[..i] == [w] + f + rest[..i - n];
      assert GREEDY !in f;
    }
  }

  lemma StarsBehind(greedy: bool, w: byte, f: seq<byte>, rest: seq<byte>)
    requires Piece(w, f, rest)
    ensures StarsAlone(greedy, [w] + f + rest) <==>
            (greedy && w == STAR ==> f == [SLASH]) && StarsAlone(greedy || w == GREEDY, rest)
  {
    hide StarAlone;
    var q, greedy', n := [w] + f + rest, greedy || w == GREEDY, 1 + |f|;
    forall i ensures StarAlone(greedy, q, i) <==>
                     if i == 0 then greedy && w == STAR ==> f == [SLASH] else StarAlone(greedy', rest, i - n)
    {
      StarBehind(greedy, w, f, rest, i);
    }
    if StarsAlone(greedy, q) {
      assert StarAlone(greedy, q, 0);
      forall i ensures StarAlone(greedy', rest, i) {
        if i + n == 0 {
          NoStar(greedy', rest, i);
        }
        assert StarAlone(greedy, q, i + n);
      }
    }
  }

  lemma NoStar(greedy: bool, q: seq<byte>, i: int)
    requires i < 0
    ensures StarAlone(greedy, q, i)
  {
  }

  /** A suffix that reaches a wildcard is no literal. */
  lemma NotLiteral(q: seq<byte>, n: nat)
    requires n < |q| && IsWild(q[n])
    ensures forall j :: 0 <= j <= n ==> !LiteralBytes(q[j..])
  {
    forall j | 0 <= j <= n ensures !LiteralBytes(q[j..]) {
      assert q[j..][n - j] == q[n];
    }
  }

  lemma EndsBehind(greedy: bool, w: byte, f: seq<byte>, rest: seq<byte>)
    requires Piece(w, f, rest)
    ensures EndsWell(greedy, [w] + f + rest) <==>
            if rest == [] then w == STAR && !greedy && SLASH in f else EndsWell(greedy || w == GREEDY, rest)
  {
    hide SlashAtEnd;
    var q := [w] + f + rest;
    assert q[|q| - 1] == if rest == [] then f[|f| - 1] else rest[|rest| - 1];
    assert GREEDY in q <==> w == GREEDY || GREEDY in rest by {
      assert GREEDY !in f;
    }
    if rest == [] {
      LastSlash(w, f);
      assert q == [w] + f;
    } else {
      LaterSlash([w] + f, rest);
    }
  }

  lemma LastSlash(w: byte, f: seq<byte>)
    requires IsWild(w) && LiteralBytes(f)
    ensures SlashAtEnd([w] + f) <==> SLASH in f
  {
    var q := [w] + f;
    if j :| 0 <= j < |q| && q[j] == SLASH && LiteralBytes(q[j..]) {
      assert q[j] == f[j - 1];
    }
    if SLASH in f {
      var j :| 0 <= j < |f| && f[j] == SLASH;
      assert q[j + 1] == SLASH && q[j + 1..] == f[j..];
    }
  }

  /** What is in front of a wildcard is not behind the last one. */
  lemma LaterSlash(a: seq<byte>, q: seq<byte>)
    requires q != [] && IsWild(q[0])
    ensures SlashAtEnd(a + q) <==> SlashAtEnd(q)
  {
    var n := |a|;
    NotLiteral(a + q, n);
    if j :| 0 <= j < |a + q| && (a + q)[j] == SLASH && LiteralBytes((a + q)[j..]) {
      assert (a + q)[j..] == q[j - n..] && q[j - n] == SLASH;
    }
    if j :| 0 <= j < |q| && q[j] == SLASH && LiteralBytes(q[j..]) {
      assert (a + q)[j + n..] == q[j..] && (a + q)[j + n] == SLASH;
    }
  }

  lemma {:induction false} FineIff(greedy: bool, q: seq<byte>)
    requires (q != [] ==> IsWild(q[0])) && NoAdjacentWildcards(q)
    ensures Fine(greedy, q) <==> StarsAlone(greedy, q) && EndsWell(greedy, q)
    decreases |q|
  {
    hide StarsAlone, EndsWell, Fine;
    if |q| <= 1 {
      FewIsFine(greedy, q);
    } else {
      var w, f, rest := Pieces(q);
      FineStep(greedy, w, f, rest);
      StarsBehind(greedy, w, f, rest);
      EndsBehind(greedy, w, f, rest);
      if rest == [] {
        FewIsFine(greedy || w == GREEDY, rest);
      } else {
        FineIff(greedy || w == GREEDY, rest);
      }
    }
  }

  // ---------------------------------------------------------------- the result

  lemma {:induction false} LiteralIsShortest(q: seq<byte>, u: seq<byte>)
    requires LiteralBytes(q)
    ensures Matches(q, u) <==> u == q
    ensures Shortest(q, u) <==> u == q
  {
    LiteralPrefix(q, [], u);
    LiteralShortest(q, [], u);
    assert q + [] == q;
  }

  /** A literal in front changes neither the condition nor what it is about. */
  lemma FrontTaken(a: seq<byte>, q: seq<byte>)
    requires LiteralBytes(a) && q != [] && IsWild(q[0])
    ensures StarsAlone(false, a + q) <==> StarsAlone(false, q)
    ensures EndsWell(false, a + q) <==> EndsWell(false, q)
  {
    StarsInFront(a, q);
    EndsInFront(a, q);
  }

  lemma StarsInFront(a: seq<byte>, q: seq<byte>)
    requires LiteralBytes(a)
    ensures StarsAlone(false, a + q) <==> StarsAlone(false, q)
  {
    forall i ensures StarAlone(false, a + q, i + |a|) <==> i < 0 || StarAlone(false, q, i) {
      if 0 <= i < |q| {
        assert (a + q)[..i + |a|] == a + q[..i];
        assert GREEDY !in a;
      }
    }
    hide StarAlone;
    forall i | StarsAlone(false, a + q) ensures StarAlone(false, q, i) {
      if i < 0 {
        NoStar(false, q, i);
      }
      assert StarAlone(false, a + q, i + |a|);
    }
    forall i | StarsAlone(false, q) ensures StarAlone(false, a + q, i) {
      assert i == (i - |a|) + |a|;
      assert StarAlone(false, q, i - |a|);
    }
  }

  lemma EndsInFront(a: seq<byte>, q: seq<byte>)
    requires LiteralBytes(a) && q != [] && IsWild(q[0])
    ensures EndsWell(false, a + q) <==> EndsWell(false, q)
  {
    hide SlashAtEnd;
    assert (a + q)[|a + q| - 1] == q[|q| - 1];
    assert GREEDY in a + q <==> GREEDY in q by {
      assert GREEDY !in a;
    }
    LaterSlash(a, q);
  }

  /** For every pattern: all urls it matches are matched with the shortest gaps if and only if
      every `*` behind a `**` that something follows has exactly "/" behind it, and the pattern
      has no wildcard, ends with one, or has no `**` and a '/' behind its last `*`.  A pattern
      with a zero byte matches no request at all. */
  lemma AllShortestIff(q: seq<byte>)
    requires NoAdjacentWildcards(q)
    ensures (forall u | Request(u) && Matches(q, u) :: Shortest(q, u)) <==> 0 in q || AllFound(q)
  {
    hide Shortest, Matches, AllFound;
    if 0 in q {
      forall u | Request(u) ensures !Matches(q, u) {
        if Matches(q, u) {
          ZeroStays(q, u);
        }
      }
    } else {
      TextShortestIff(q);
    }
  }

  lemma {:induction false} ZeroStays(q: seq<byte>, u: seq<byte>)
    requires 0 in q && Matches(q, u)
    ensures 0 in u
    decreases |q|
  {
    if q[0] != 0 {
      assert 0 in q[1..];
      if !IsWild(q[0]) {
        ZeroStays(q[1..], u[1..]);
      } else if |q| > 1 {
        var k :| Gap(q[0], u, k) && Matches(q[1..], u[k..]);
        ZeroStays(q[1..], u[k..]);
      }
    }
  }

  lemma TextShortestIff(q: seq<byte>)
    requires NoAdjacentWildcards(q) && 0 !in q
    ensures (forall u | Request(u) && Matches(q, u) :: Shortest(q, u)) <==> AllFound(q)
  {
    hide Shortest, Matches, StarsAlone, EndsWell, Fine, Request;
    var a := Front(q);
    var rest := q[|a|..];
    assert q == a + rest;
    if rest == [] {
      AllLiteral(q);
    } else {
      FrontTaken(a, rest);
      assert !LiteralBytes(q) by {
        assert IsWild(q[|a|]);
      }
      BehindFront(q, a, rest);
      FineIff(false, rest);
      forall u | Matches(q, u) && Fine(false, rest) ensures Shortest(q, u) {
        FineFinds(a, rest, u);
      }
      if !Fine(false, rest) {
        var u := Missed(rest);
        MissedBehind(a, rest, u);
      }
    }
  }

  lemma FineFinds(a: seq<byte>, rest: seq<byte>, u: seq<byte>)
    requires LiteralBytes(a) && rest != [] && IsWild(rest[0]) && NoAdjacentWildcards(rest) && Fine(false, rest)
    requires Matches(a + rest, u)
    ensures Shortest(a + rest, u)
  {
    hide Shortest, Matches, Fine;
    LiteralPrefix(a, rest, u);
    LiteralShortest(a, rest, u);
    assert [] + u[|a|..] == u[|a|..];
    Early(false, rest, [], u[|a|..]);
  }

  lemma MissedBehind(a: seq<byte>, rest: seq<byte>, u: seq<byte>)
    requires Request(a) && Request(u) && Matches(rest, u) && !Shortest(rest, u)
    ensures Request(a + u) && Matches(a + rest, a + u) && !Shortest(a + rest, a + u)
  {
    hide Shortest, Matches;
    assert LiteralBytes(a);
    LiteralPrefix(a, rest, a + u);
    LiteralShortest(a, rest, a + u);
    assert (a + u)[|a|..] == u;
  }

  lemma BehindFront(q: seq<byte>, a: seq<byte>, rest: seq<byte>)
    requires NoAdjacentWildcards(q) && 0 !in q && q == a + rest && LiteralBytes(a)
    ensures NoAdjacentWildcards(rest) && 0 !in rest && Request(a)
  {
    forall i | 0 < i < |rest| ensures !(IsWild(rest[i - 1]) && IsWild(rest[i])) {
      assert rest[i] == q[|a| + i] && rest[i - 1] == q[|a| + i - 1];
    }
    forall i | 0 <= i < |a| ensures a[i] >= FIRST_LITERAL {
      assert a[i] == q[i];
    }
  }

  lemma AllLiteral(q: seq<byte>)
    requires LiteralBytes(q)
    ensures (forall u | Request(u) && Matches(q, u) :: Shortest(q, u)) && AllFound(q)
  {
    hide Shortest, Matches;
    forall u | Request(u) && Matches(q, u) ensures Shortest(q, u) {
      LiteralIsShortest(q, u);
    }
  }

  // ---------------------------------------------------------------- one wildcard

  /** With one wildcard and a literal behind it: the literal ends the url and stands nowhere
      before. */
  lemma OneGapIff(a: seq<byte>, w: byte, f: seq<byte>, u: seq<byte>)
    requires LiteralBytes(a) && LiteralBytes(f) && f != [] && IsWild(w)
    ensures Shortest(a + [w] + f, u) <==>
            Matches(a + [w] + f, u) && forall i :: |a| <= i < |u| - |f| ==> !OccursAt(u, f, i)
  {
    hide *;
    var q := [w] + f + [];
    assert a + [w] + f == a + q;
    BehindLiteral(a, w, f, u);
  }

  lemma BehindLiteral(a: seq<byte>, w: byte, f: seq<byte>, u: seq<byte>)
    requires LiteralBytes(a) && LiteralBytes(f) && f != [] && IsWild(w)
    ensures var q := a + ([w] + f + []);
            Shortest(q, u) <==> Matches(q, u) && forall i :: |a| <= i < |u| - |f| ==> !OccursAt(u, f, i)
  {
    hide Shortest, Matches, OccursAt, LiteralBytes, Piece;
    var q := [w] + f + [];
    LiteralShortest(a, q, u);
    LiteralPrefix(a, q, u);
    if a <= u {
      NoneBefore(a, f, u);
      IsPiece(w, f);
      LastGapIff(w, f, u[|a|..]);
    }
  }

  lemma IsPiece(w: byte, f: seq<byte>)
    requires LiteralBytes(f) && f != [] && IsWild(w)
    ensures Piece(w, f, [])
  {
  }

  lemma NoneBefore(a: seq<byte>, f: seq<byte>, u: seq<byte>)
    requires a <= u
    ensures var v := u[|a|..];
            (forall i :: 0 <= i < |v| - |f| ==> !OccursAt(v, f, i)) <==>
            forall i :: |a| <= i < |u| - |f| ==> !OccursAt(u, f, i)
  {
    hide OccursAt;
    var v := u[|a|..];
    forall i | 0 <= i ensures OccursAt(v, f, i) <==> OccursAt(u, f, |a| + i) {
      OccursBehindFront(a, u, f, i);
    }
    forall i | |a| <= i ensures OccursAt(u, f, i) <==> OccursAt(v, f, i - |a|) {
      assert OccursAt(v, f, i - |a|) <==> OccursAt(u, f, |a| + (i - |a|));
    }
  }

  lemma LastGapIff(w: byte, f: seq<byte>, v: seq<byte>)
    requires Piece(w, f, [])
    ensures Shortest([w] + f + [], v) <==>
            Matches([w] + f + [], v) && forall i :: 0 <= i < |v| - |f| ==> !OccursAt(v, f, i)
  {
    hide Shortest, Matches, OccursAt;
    var q := [w] + f + [];
    if Shortest(q, v) {
      ShortestMatches(q, v);
      var k := ShortestSomewhere(w, f, [], v);
      ShortestAt(w, f, [], v, k);
      LastPlace(v, f, k);
    }
    if Matches(q, v) && forall i :: 0 <= i < |v| - |f| ==> !OccursAt(v, f, i) {
      var k := MatchesAt(w, f, [], v);
      LastPlace(v, f, k);
      ShortestAt(w, f, [], v, k);
    }
  }

  lemma LastPlace(v: seq<byte>, f: seq<byte>, k: nat)
    requires OccursAt(v, f, k)
    ensures Shortest([], v[k + |f|..]) <==> k == |v| - |f|
    ensures Matches([], v[k + |f|..]) <==> k == |v| - |f|
  {
  }

  lemma OccursBehindFront(a: seq<byte>, u: seq<byte>, f: seq<byte>, i: nat)
    requires a <= u
    ensures OccursAt(u[|a|..], f, i) <==> OccursAt(u, f, |a| + i)
  {
    if |a| + i + |f| <= |u| {
      assert u[|a|..][i..i + |f|] == u[|a| + i..|a| + i + |f|];
    }
  }

  /** All its matches are found if and only if the wildcard is `*` and the literal has a '/'. */
  lemma OneGapAllFound(a: seq<byte>, w: byte, f: seq<byte>)
    requires LiteralBytes(a) && LiteralBytes(f) && f != [] && IsWild(w)
    ensures AllFound(a + [w] + f) <==> w == STAR && SLASH in f
  {
    hide StarsAlone, EndsWell;
    var q := [w] + f + [];
    assert a + [w] + f == a + q;
    FrontTaken(a, q);
    StarsBehind(false, w, f, []);
    EndsBehind(false, w, f, []);
    FewIsFine(w == GREEDY, []);
    assert (a + q)[|a|] == w;
  }
}
