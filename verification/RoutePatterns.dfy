/** How a route url is compiled into a pattern: stars collapse, then the host is reversed. */
module RoutePatterns {
  import opened Common
  import opened RouteTrie
  import opened HostReversal

  const ASTERISK: byte := 42

  /** Length of the run of `b` that `s` starts with. */
  function RunLength(s: seq<byte>, b: byte): (n: nat)
    ensures n <= |s| && (forall i :: 0 <= i < n ==> s[i] == b)
    ensures n < |s| ==> s[n] != b
  {
    if s == [] || s[0] != b then 0 else 1 + RunLength(s[1..], b)
  }

  /** A run of two or more stars becomes `**`, a single star `*`. */
  function Collapse(url: seq<byte>): (p: seq<byte>)
    ensures |p| <= |url|
    decreases |url|
  {
    if url == [] then []
    else if url[0] != ASTERISK then [url[0]] + Collapse(url[1..])
    else
      var n := RunLength(url, ASTERISK);
      [if n >= 2 then GREEDY else STAR] + Collapse(url[n..])
  }

  function Pattern(url: seq<byte>): seq<byte> {
    HostReversed(Collapse(url))
  }

  // ---------------------------------------------------------------- what a pattern is

  function Stars(n: nat): seq<byte> {
    if n == 0 then [] else [ASTERISK] + Stars(n - 1)
  }

  lemma {:induction false} CollapseText(a: seq<byte>)
    requires ASTERISK !in a
    ensures Collapse(a) == a
  {
    if a != [] {
      CollapseText(a[1..]);
    }
  }

  lemma {:induction false} RunInFront(a: seq<byte>, b: seq<byte>)
    requires RunLength(a, ASTERISK) < |a| || b == [] || b[0] != ASTERISK
    ensures RunLength(a + b, ASTERISK) == RunLength(a, ASTERISK)
  {
    if a == [] {
      assert a + b == b;
    } else {
      assert (a + b)[1..] == a[1..] + b;
      if a[0] == ASTERISK {
        RunInFront(a[1..], b);
      }
    }
  }

  /** Two parts of a url are compiled by themselves unless a run of stars lies across. */
  lemma {:induction false} CollapseConcat(a: seq<byte>, b: seq<byte>)
    requires a == [] || b == [] || a[|a| - 1] != ASTERISK || b[0] != ASTERISK
    ensures Collapse(a + b) == Collapse(a) + Collapse(b)
    decreases |a|
  {
    hide Collapse, RunLength;
    if a == [] {
      assert a + b == b;
      CollapseNothing();
    } else {
      var n := if a[0] == ASTERISK then RunLength(a, ASTERISK) else 1;
      if a[0] == ASTERISK {
        RunInFront(a, b);
      }
      CollapseHead(a, n);
      CollapseHead(a + b, n);
      assert (a + b)[n..] == a[n..] + b;
      CollapseConcat(a[n..], b);
      ConcatAssociates([Collapse(a)[0]], Collapse(a[n..]), Collapse(b));
    }
  }

  lemma CollapseNothing()
    ensures Collapse([]) == []
  {
  }

  lemma ConcatAssociates<T>(a: seq<T>, b: seq<T>, c: seq<T>)
    ensures (a + b) + c == a + (b + c)
  {
  }

  lemma CollapseHead(s: seq<byte>, n: nat)
    requires s != [] && n == if s[0] == ASTERISK then RunLength(s, ASTERISK) else 1
    ensures 0 < n <= |s|
    ensures Collapse(s) == [if s[0] != ASTERISK then s[0] else if n >= 2 then GREEDY else STAR] + Collapse(s[n..])
  {
  }

  lemma {:induction false} RunOfStars(n: nat, b: seq<byte>)
    requires b != [] ==> b[0] != ASTERISK
    ensures RunLength(Stars(n) + b, ASTERISK) == n && |Stars(n)| == n
  {
    if n == 0 {
      assert Stars(n) + b == b;
    } else {
      var rest := Stars(n - 1) + b;
      assert Stars(n) + b == [ASTERISK] + rest && ([ASTERISK] + rest)[1..] == rest;
      RunOfStars(n - 1, b);
    }
  }

  lemma CollapseStars(n: nat, b: seq<byte>)
    requires n > 0 && (b != [] ==> b[0] != ASTERISK)
    ensures Collapse(Stars(n) + b) == [if n == 1 then STAR else GREEDY] + Collapse(b)
  {
    hide Stars;
    RunOfStars(n, b);
    assert (Stars(n) + b)[n..] == b;
  }

  /** A whole run of stars becomes one wildcard: `*` for one star, `**` for more. */
  lemma CollapseRun(a: seq<byte>, n: nat, b: seq<byte>)
    requires n > 0 && (a != [] ==> a[|a| - 1] != ASTERISK) && (b != [] ==> b[0] != ASTERISK)
    ensures Collapse(a + (Stars(n) + b)) == Collapse(a) + ([if n == 1 then STAR else GREEDY] + Collapse(b))
  {
    hide Collapse, Stars;
    CollapseStars(n, b);
    CollapseConcat(a, Stars(n) + b);
  }

  lemma {:induction false} CollapseMembers(a: seq<byte>, b: byte)
    requires b in Collapse(a) && !IsWild(b)
    ensures b in a
    decreases |a|
  {
    if a != [] {
      var n := if a[0] == ASTERISK then RunLength(a, ASTERISK) else 1;
      if a[0] == ASTERISK || b != a[0] {
        assert b in Collapse(a[n..]);
        CollapseMembers(a[n..], b);
      }
    }
  }

  function CollapsedAll(labels: seq<seq<byte>>): (r: seq<seq<byte>>)
    ensures |r| == |labels| && forall i :: 0 <= i < |r| ==> r[i] == Collapse(labels[i])
  {
    seq(|labels|, i requires 0 <= i < |labels| => Collapse(labels[i]))
  }

  lemma {:induction false} CollapseJoined(labels: seq<seq<byte>>)
    requires labels != []
    ensures Collapse(Joined(labels)) == Joined(CollapsedAll(labels))
  {
    hide Collapse;
    if |labels| > 1 {
      ConcatAssociates(labels[0], [DOT], Joined(labels[1..]));
      ConcatAssociates(Collapse(labels[0]), [DOT], Joined(CollapsedAll(labels[1..])));
      CollapseConcat(labels[0], [DOT] + Joined(labels[1..]));
      CollapseConcat([DOT], Joined(labels[1..]));
      CollapseText([DOT]);
      CollapseJoined(labels[1..]);
      assert CollapsedAll(labels)[1..] == CollapsedAll(labels[1..]);
    }
  }

  lemma TailStays(tail: seq<byte>)
    requires Tail(tail)
    ensures Tail(Collapse(tail))
  {
  }

  /** The pattern of a url with these labels and this tail: the labels in reverse order, and
      then the tail, each with its stars compiled. */
  lemma PatternIs(url: seq<byte>, labels: seq<seq<byte>>, tail: seq<byte>)
    requires HasHost(url, labels, tail)
    ensures Pattern(url) == Joined(Backwards(CollapsedAll(labels))) + Collapse(tail)
  {
    hide Collapse, Joined, HostReversed;
    var all := CollapsedAll(labels);
    CollapseJoined(labels);
    CollapseConcat(Joined(labels), tail);
    assert Collapse(url) == Joined(all) + Collapse(tail);
    TailStays(tail);
    forall l | l in all ensures DOT !in l && SLASH !in l {
      var i :| 0 <= i < |all| && all[i] == l;
      assert labels[i] in labels;
      if DOT in l { CollapseMembers(labels[i], DOT); }
      if SLASH in l { CollapseMembers(labels[i], SLASH); }
    }
    HostReversedIs(Collapse(url), all, Collapse(tail));
  }

  /** Route urls are text without the two bytes that stand for wildcards. */
  ghost predicate PlainUrl(url: seq<byte>) {
    (forall i :: 0 <= i < |url| ==> !IsWild(url[i])) && |url| < MAX_ROUTE_LENGTH
  }

  lemma {:induction false} CollapseIsolates(url: seq<byte>)
    requires forall i :: 0 <= i < |url| ==> !IsWild(url[i])
    ensures NoAdjacentWildcards(Collapse(url))
    ensures Collapse(url) != [] && IsWild(Collapse(url)[0]) ==> url[0] == ASTERISK
    decreases |url|
  {
    if url != [] {
      var n := if url[0] == ASTERISK then RunLength(url, ASTERISK) else 1;
      CollapseIsolates(url[n..]);
      var rest := Collapse(url[n..]);
      var p := Collapse(url);
      assert p[1..] == rest;
      forall i | 0 < i < |p| ensures !(IsWild(p[i - 1]) && IsWild(p[i])) {
        assert p[i] == rest[i - 1];
        if i > 1 { assert p[i - 1] == rest[i - 2]; }
      }
    }
  }

  // ---------------------------------------------------------------- reversing keeps wildcards apart

  lemma NoAdjacentParts(a: seq<byte>, b: seq<byte>)
    requires NoAdjacentWildcards(a) && NoAdjacentWildcards(b)
    requires a != [] && b != [] ==> !(IsWild(a[|a| - 1]) && IsWild(b[0]))
    ensures NoAdjacentWildcards(a + b)
  {
    var s := a + b;
    forall i | 0 < i < |s| ensures !(IsWild(s[i - 1]) && IsWild(s[i])) {
      if i < |a| { assert s[i - 1] == a[i - 1] && s[i] == a[i]; }
      if i > |a| { assert s[i - 1] == b[i - 1 - |a|] && s[i] == b[i - |a|]; }
    }
  }

  lemma NoAdjacentSlice(s: seq<byte>, i: nat, j: nat)
    requires NoAdjacentWildcards(s) && i <= j <= |s|
    ensures NoAdjacentWildcards(s[i..j])
  {
  }

  lemma {:induction false} LabelsKeepApart(h: seq<byte>)
    requires NoAdjacentWildcards(h)
    ensures NoAdjacentWildcards(ReverseLabels(h))
    decreases |h|
  {
    var d := FirstIndex(h, DOT);
    if d < |h| {
      NoAdjacentSlice(h, 0, d);
      NoAdjacentSlice(h, d + 1, |h|);
      assert h[d + 1..|h|] == h[d + 1..] && h[0..d] == h[..d];
      LabelsKeepApart(h[d + 1..]);
      NoAdjacentParts(ReverseLabels(h[d + 1..]), [DOT]);
      NoAdjacentParts(ReverseLabels(h[d + 1..]) + [DOT], h[..d]);
    }
  }

  lemma HostKeepsApart(u: seq<byte>)
    requires NoAdjacentWildcards(u)
    ensures NoAdjacentWildcards(HostReversed(u))
  {
    var slash := FirstIndex(u, SLASH);
    NoAdjacentSlice(u, 0, slash);
    NoAdjacentSlice(u, slash, |u|);
    assert u[0..slash] == u[..slash] && u[slash..|u|] == u[slash..];
    LabelsKeepApart(u[..slash]);
    NoAdjacentParts(ReverseLabels(u[..slash]), u[slash..]);
  }

  /** The number of wildcards depends on the bytes, not on their order. */
  lemma {:induction false} WildcardCountMultiset(w: seq<byte>)
    ensures WildcardCount(w) == multiset(w)[GREEDY] + multiset(w)[STAR]
    decreases |w|
  {
    if w != [] {
      WildcardCountMultiset(w[..|w| - 1]);
      assert w == w[..|w| - 1] + [w[|w| - 1]];
    }
  }

  /** A route with at most 32 wildcards compiles into a pattern the router can hold. */
  lemma PatternAdmissible(url: seq<byte>)
    requires PlainUrl(url) && WildcardCount(Collapse(url)) <= MAX_WILDCARDS
    ensures Admissible(Pattern(url))
    ensures url != [] ==> Pattern(url) != []
  {
    var c := Collapse(url);
    CollapseIsolates(url);
    HostKeepsApart(c);
    HostReversedMultiset(c);
    WildcardCountMultiset(c);
    WildcardCountMultiset(Pattern(url));
  }

  /** Prefixes of patterns the router can hold can be held too. */
  lemma {:induction false} PrefixAdmissible(w: seq<byte>, n: nat)
    requires Admissible(w) && n <= |w|
    ensures Admissible(w[..n])
    decreases |w| - n
  {
    if n == |w| {
      assert w[..n] == w;
    } else {
      PrefixAdmissible(w, n + 1);
      var v := w[..n + 1];
      assert v[..|v| - 1] == w[..n];
    }
  }

  /** The count is that of the bytes that stand for `*` and `**`. */
  lemma {:induction false} WildcardsCounted(w: seq<byte>)
    ensures WildcardCount(w) == |set i: nat | i < |w| && (w[i] == GREEDY || w[i] == STAR)|
    decreases |w|
  {
    var places := set i: nat | i < |w| && (w[i] == GREEDY || w[i] == STAR);
    if w != [] {
      var last := |w| - 1;
      WildcardsCounted(w[..last]);
      var before := set i: nat | i < |w[..last]| && (w[..last][i] == GREEDY || w[..last][i] == STAR);
      assert places == before + if IsWild(w[last]) then {last} else {};
    } else {
      assert places == {};
    }
  }
}
