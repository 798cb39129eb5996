/** Reversing the host labels at the start of a url, in place. */
module HostReversal {
  import opened Common
  import opened RouteTrie

  function Reverse(s: seq<byte>): (r: seq<byte>)
    ensures |r| == |s|
  {
    if s == [] then [] else Reverse(s[1..]) + [s[0]]
  }

  /** Index of the first `b` in `s`, or its length. */
  function FirstIndex(s: seq<byte>, b: byte): (i: nat)
    ensures i <= |s| && b !in s[..i]
    ensures i < |s| ==> s[i] == b
  {
    if s == [] || s[0] == b then 0 else
      var i := 1 + FirstIndex(s[1..], b);
      assert s[..i] == [s[0]] + s[1..][..i - 1];
      i
  }

  /** The '.'-separated labels of `h`, last first. */
  function ReverseLabels(h: seq<byte>): (r: seq<byte>)
    ensures |r| == |h|
    decreases |h|
  {
    var d := FirstIndex(h, DOT);
    if d == |h| then h else ReverseLabels(h[d + 1..]) + [DOT] + h[..d]
  }

  /** What `ReverseHost` makes of a url: the host is what lies before the first '/'. */
  function HostReversed(u: seq<byte>): seq<byte> {
    var slash := FirstIndex(u, SLASH);
    ReverseLabels(u[..slash]) + u[slash..]
  }

  /** Each label of `h` turned around, in place. */
  function TurnLabels(h: seq<byte>): (r: seq<byte>)
    ensures |r| == |h|
    decreases |h|
  {
    var d := FirstIndex(h, DOT);
    if d == |h| then Reverse(h) else Reverse(h[..d]) + [DOT] + TurnLabels(h[d + 1..])
  }

  // ---------------------------------------------------------------- reversal

  lemma {:induction false} ReverseConcat(a: seq<byte>, b: seq<byte>)
    ensures Reverse(a + b) == Reverse(b) + Reverse(a)
    decreases |a|
  {
    if a == [] {
      assert a + b == b;
    } else {
      assert (a + b)[1..] == a[1..] + b;
      ReverseConcat(a[1..], b);
    }
  }

  lemma {:induction false} ReverseTwice(s: seq<byte>)
    ensures Reverse(Reverse(s)) == s
    decreases |s|
  {
    if s != [] {
      ReverseConcat(Reverse(s[1..]), [s[0]]);
      ReverseTwice(s[1..]);
      assert Reverse([s[0]]) == [s[0]];
    }
  }

  lemma {:induction false} ReverseAt(s: seq<byte>, k: nat)
    requires k < |s|
    ensures Reverse(s)[k] == s[|s| - 1 - k]
    decreases |s|
  {
    if k < |s| - 1 {
      ReverseAt(s[1..], k);
    }
  }

  lemma {:induction false} ReverseMembers(s: seq<byte>, b: byte)
    ensures b in Reverse(s) <==> b in s
    decreases |s|
  {
    if s != [] {
      ReverseMembers(s[1..], b);
      assert s == [s[0]] + s[1..];
    }
  }

  // ---------------------------------------------------------------- labels

  lemma FirstIndexIs(s: seq<byte>, b: byte, i: nat)
    requires i <= |s| && b !in s[..i] && (i < |s| ==> s[i] == b)
    ensures FirstIndex(s, b) == i
  {
    var k := FirstIndex(s, b);
    forall j | 0 <= j < i ensures s[j] != b {
      assert s[..i][j] == s[j];
    }
    forall j | 0 <= j < k ensures s[j] != b {
      assert s[..k][j] == s[j];
    }
  }

  lemma FirstIndexConcat(a: seq<byte>, b: seq<byte>, x: byte)
    requires x !in a
    ensures FirstIndex(a + [x] + b, x) == |a|
  {
    assert (a + [x] + b)[..|a|] == a;
    FirstIndexIs(a + [x] + b, x, |a|);
  }

  /** A host with first label `a`. */
  lemma FirstLabel(a: seq<byte>, b: seq<byte>)
    requires DOT !in a
    ensures TurnLabels(a + [DOT] + b) == Reverse(a) + [DOT] + TurnLabels(b)
    ensures ReverseLabels(a + [DOT] + b) == ReverseLabels(b) + [DOT] + a
  {
    hide Reverse;
    var h := a + [DOT] + b;
    FirstIndexConcat(a, b, DOT);
    assert h[..|a|] == a && h[|a| + 1..] == b;
  }

  lemma OnlyLabel(a: seq<byte>)
    requires DOT !in a
    ensures TurnLabels(a) == Reverse(a) && ReverseLabels(a) == a
  {
    hide Reverse;
    FirstIndexIs(a, DOT, |a|);
  }

  /** Turning and reversing the labels of a host whose last label is `y`. */
  lemma {:induction false} LastLabel(x: seq<byte>, y: seq<byte>)
    requires DOT !in y
    ensures TurnLabels(x + [DOT] + y) == TurnLabels(x) + [DOT] + Reverse(y)
    ensures ReverseLabels(x + [DOT] + y) == y + [DOT] + ReverseLabels(x)
    decreases |x|
  {
    hide Reverse, TurnLabels, ReverseLabels;
    var d := FirstIndex(x, DOT);
    if d == |x| {
      assert x[..d] == x;
      OnlyLabel(x);
      OnlyLabel(y);
      FirstLabel(x, y);
    } else {
      var a, rest := x[..d], x[d + 1..];
      assert x == a + [DOT] + rest;
      assert x + [DOT] + y == a + [DOT] + (rest + [DOT] + y);
      FirstLabel(a, rest);
      FirstLabel(a, rest + [DOT] + y);
      LastLabel(rest, y);
    }
  }

  /** Reversing the host and then turning each label back reverses the order of labels. */
  lemma {:induction false} TurnReversed(h: seq<byte>)
    ensures TurnLabels(Reverse(h)) == ReverseLabels(h)
    decreases |h|
  {
    hide TurnLabels, ReverseLabels;
    var d := FirstIndex(h, DOT);
    if d == |h| {
      assert h[..d] == h;
      ReverseMembers(h, DOT);
      ReverseTwice(h);
      OnlyLabel(h);
      OnlyLabel(Reverse(h));
    } else {
      var a, b := h[..d], h[d + 1..];
      assert h == (a + [DOT]) + b;
      ReverseConcat(a + [DOT], b);
      ReverseConcat(a, [DOT]);
      assert Reverse([DOT]) == [DOT];
      hide Reverse;
      assert Reverse(h) == Reverse(b) + [DOT] + Reverse(a);
      ReverseMembers(a, DOT);
      LastLabel(Reverse(b), Reverse(a));
      ReverseTwice(a);
      TurnReversed(b);
      FirstLabel(a, b);
    }
  }

  lemma {:induction false} ReverseLabelsTwice(h: seq<byte>)
    ensures ReverseLabels(ReverseLabels(h)) == h
    decreases |h|
  {
    hide ReverseLabels;
    var d := FirstIndex(h, DOT);
    if d < |h| {
      var a, b := h[..d], h[d + 1..];
      assert h == a + [DOT] + b;
      FirstLabel(a, b);
      ReverseLabelsTwice(b);
      LastLabel(ReverseLabels(b), a);
    } else {
      assert h[..d] == h;
      OnlyLabel(h);
    }
  }

  lemma {:induction false} ReverseLabelsMultiset(h: seq<byte>)
    ensures multiset(ReverseLabels(h)) == multiset(h)
    decreases |h|
  {
    hide ReverseLabels, FirstIndex;
    var d := FirstIndex(h, DOT);
    LabelsFromBehind(h);
    if d < |h| {
      ReverseLabelsMultiset(h[d + 1..]);
      assert h == h[..d] + [DOT] + h[d + 1..];
      ThreeParts(h[..d], [DOT], h[d + 1..]);
      ThreeParts(ReverseLabels(h[d + 1..]), [DOT], h[..d]);
      TurnedAround(multiset(h[..d]), multiset([DOT]), multiset(h[d + 1..]));
    }
  }

  lemma LabelsFromBehind(h: seq<byte>)
    ensures var d := FirstIndex(h, DOT);
            ReverseLabels(h) == if d == |h| then h else ReverseLabels(h[d + 1..]) + [DOT] + h[..d]
  {
    hide FirstIndex;
  }

  lemma TurnedAround(a: multiset<byte>, b: multiset<byte>, c: multiset<byte>)
    ensures a + b + c == c + b + a
  {
  }

  lemma ThreeParts(a: seq<byte>, b: seq<byte>, c: seq<byte>)
    ensures multiset(a + b + c) == multiset(a) + multiset(b) + multiset(c)
  {
  }

  // ---------------------------------------------------------------- the whole url

  /** Reversing the host twice gives the url back, on every byte string. */
  lemma HostReversedTwice(u: seq<byte>)
    ensures HostReversed(HostReversed(u)) == u
  {
    hide ReverseLabels;
    var slash := FirstIndex(u, SLASH);
    var host, tail := ReverseLabels(u[..slash]), u[slash..];
    var v := host + tail;
    assert v[..slash] == host && v[slash..] == tail;
    LabelsKeepMembers(u[..slash], SLASH);
    FirstIndexIs(v, SLASH, slash);
    ReverseLabelsTwice(u[..slash]);
    assert u == u[..slash] + tail;
  }

  lemma LabelsKeepMembers(h: seq<byte>, b: byte)
    ensures b in ReverseLabels(h) <==> b in h
  {
    hide ReverseLabels;
    ReverseLabelsMultiset(h);
    assert b in ReverseLabels(h) <==> b in multiset(ReverseLabels(h));
    assert b in h <==> b in multiset(h);
  }

  lemma HostReversedMultiset(u: seq<byte>)
    ensures multiset(HostReversed(u)) == multiset(u) && |HostReversed(u)| == |u|
  {
    var slash := FirstIndex(u, SLASH);
    ReverseLabelsMultiset(u[..slash]);
    assert u == u[..slash] + u[slash..];
  }

  // ---------------------------------------------------------------- labels and tail

  /** Labels with a '.' between them. */
  function Joined(labels: seq<seq<byte>>): seq<byte>
    requires labels != []
  {
    if |labels| == 1 then labels[0] else labels[0] + [DOT] + Joined(labels[1..])
  }

  function Backwards<T>(s: seq<T>): (r: seq<T>)
    ensures |r| == |s| && forall i :: 0 <= i < |s| ==> r[i] == s[|s| - 1 - i]
  {
    seq(|s|, i requires 0 <= i < |s| => s[|s| - 1 - i])
  }

  ghost predicate Labels(labels: seq<seq<byte>>) {
    labels != [] && forall l <- labels :: DOT !in l && SLASH !in l
  }

  /** What follows the host. */
  ghost predicate Tail(tail: seq<byte>) {
    tail != [] ==> tail[0] == SLASH
  }

  /** `u` consists of these labels and this tail. */
  ghost predicate HasHost(u: seq<byte>, labels: seq<seq<byte>>, tail: seq<byte>) {
    Labels(labels) && Tail(tail) && u == Joined(labels) + tail
  }

  lemma {:induction false} JoinedLast(labels: seq<seq<byte>>, last: seq<byte>)
    requires labels != []
    ensures Joined(labels + [last]) == Joined(labels) + [DOT] + last
    decreases |labels|
  {
    var all := labels + [last];
    if |labels| == 1 {
      assert all[1..] == [last];
    } else {
      assert all[1..] == labels[1..] + [last];
      JoinedLast(labels[1..], last);
    }
  }

  lemma {:induction false} LabelsReversed(labels: seq<seq<byte>>)
    requires Labels(labels)
    ensures ReverseLabels(Joined(labels)) == Joined(Backwards(labels))
    decreases |labels|
  {
    hide ReverseLabels;
    if |labels| == 1 {
      OnlyLabel(labels[0]);
      assert Backwards(labels) == labels;
    } else {
      var rest := labels[1..];
      assert forall l <- rest :: l in labels;
      FirstLabel(labels[0], Joined(rest));
      LabelsReversed(rest);
      JoinedLast(Backwards(rest), labels[0]);
      assert Backwards(labels) == Backwards(rest) + [labels[0]];
    }
  }

  lemma {:induction false} JoinedMembers(labels: seq<seq<byte>>)
    requires Labels(labels)
    ensures SLASH !in Joined(labels)
    decreases |labels|
  {
    if |labels| > 1 {
      assert forall l <- labels[1..] :: l in labels;
      JoinedMembers(labels[1..]);
    }
  }

  /** What host reversal is: the labels before the first '/' in reverse order, the tail as it is. */
  lemma HostReversedIs(u: seq<byte>, labels: seq<seq<byte>>, tail: seq<byte>)
    requires HasHost(u, labels, tail)
    ensures HostReversed(u) == Joined(Backwards(labels)) + tail
  {
    hide ReverseLabels;
    var host := Joined(labels);
    JoinedMembers(labels);
    assert u[..|host|] == host && u[|host|..] == tail;
    FirstIndexIs(u, SLASH, |host|);
    LabelsReversed(labels);
  }

  lemma HostsReversed(u: seq<byte>)
    ensures forall labels, tail | HasHost(u, labels, tail) :: HostReversed(u) == Joined(Backwards(labels)) + tail
  {
    forall labels, tail | HasHost(u, labels, tail) ensures HostReversed(u) == Joined(Backwards(labels)) + tail {
      HostReversedIs(u, labels, tail);
    }
  }

  /** Every url has a host in this sense. */
  lemma HostParts(u: seq<byte>) returns (labels: seq<seq<byte>>, tail: seq<byte>)
    ensures HasHost(u, labels, tail)
  {
    var slash := FirstIndex(u, SLASH);
    labels := HostLabels(u[..slash]);
    tail := u[slash..];
    assert u == u[..slash] + tail;
  }

  lemma {:induction false} HostLabels(h: seq<byte>) returns (labels: seq<seq<byte>>)
    requires SLASH !in h
    ensures Labels(labels) && Joined(labels) == h
    decreases |h|
  {
    var d := FirstIndex(h, DOT);
    if d == |h| {
      assert h[..d] == h;
      labels := [h];
    } else {
      var rest := HostLabels(h[d + 1..]);
      labels := [h[..d]] + rest;
      assert labels[1..] == rest && h == h[..d] + [DOT] + h[d + 1..];
    }
  }

  // ---------------------------------------------------------------- in place

  ghost predicate MirroredUpTo(s: seq<byte>, was: seq<byte>, lo: nat, hi: nat, i: nat, j: nat)
    requires |s| == |was| && lo <= i <= j <= hi <= |s|
  {
    && (forall k :: 0 <= k < |s| && !(lo <= k < i) && !(j <= k < hi) ==> s[k] == was[k])
    && (forall k :: lo <= k < i || j <= k < hi ==> s[k] == was[lo + hi - 1 - k])
  }

  lemma Mirrored(s: seq<byte>, was: seq<byte>, lo: nat, hi: nat, i: nat, j: nat)
    requires |s| == |was| && lo <= i <= j <= hi <= |s| && i - lo == hi - j && j <= i + 1
    requires MirroredUpTo(s, was, lo, hi, i, j)
    ensures s == was[..lo] + Reverse(was[lo..hi]) + was[hi..]
  {
    var r := was[..lo] + Reverse(was[lo..hi]) + was[hi..];
    forall k | 0 <= k < |s| ensures s[k] == r[k] {
      if lo <= k < hi {
        ReverseAt(was[lo..hi], k - lo);
      }
    }
  }

  method ReverseRange(a: array<byte>, lo: nat, hi: nat)
    requires lo <= hi <= a.Length
    modifies a
    ensures a[..] == old(a[..lo]) + Reverse(old(a[lo..hi])) + old(a[hi..])
  {
    ghost var was := a[..];
    var i, j := lo, hi;
    while i + 1 < j
      invariant lo <= i <= j <= hi && i - lo == hi - j
      invariant MirroredUpTo(a[..], was, lo, hi, i, j)
    {
      j := j - 1;
      a[i], a[j] := a[j], a[i];
      i := i + 1;
    }
    Mirrored(a[..], was, lo, hi, i, j);
  }

  /** `s` is made of `done`, the labels turned so far, what is left of the reversed host
      `turned`, and the rest of the url. */
  ghost predicate Turning(s: seq<byte>, turned: seq<byte>, tail: seq<byte>, done: seq<byte>, left: seq<byte>) {
    s == done + left + tail && done + TurnLabels(left) == TurnLabels(turned)
  }

  lemma Slices(a: seq<byte>, b: seq<byte>, c: seq<byte>)
    ensures var s := a + b + c;
            s[..|a|] == a && s[|a|..|a| + |b|] == b && s[|a| + |b|..] == c
  {
  }

  lemma TurnStep(s: seq<byte>, s': seq<byte>, turned: seq<byte>, tail: seq<byte>, done: seq<byte>, left: seq<byte>,
                 k: nat)
    requires Turning(s, turned, tail, done, left) && k < |left| && DOT !in left[..k] && left[k] == DOT
    requires s' == s[..|done|] + Reverse(s[|done|..|done| + k]) + s[|done| + k..]
    ensures Turning(s', turned, tail, done + Reverse(left[..k]) + [DOT], left[k + 1..])
  {
    hide Reverse, TurnLabels;
    var part, rest := left[..k], left[k + 1..];
    assert left == part + [DOT] + rest;
    assert s == done + part + ([DOT] + rest + tail);
    Slices(done, part, [DOT] + rest + tail);
    FirstLabel(part, rest);
  }

  lemma TurnEnd(s: seq<byte>, s': seq<byte>, turned: seq<byte>, tail: seq<byte>, done: seq<byte>, left: seq<byte>)
    requires Turning(s, turned, tail, done, left) && DOT !in left
    requires s' == s[..|done|] + Reverse(s[|done|..|done| + |left|]) + s[|done| + |left|..]
    ensures s' == TurnLabels(turned) + tail
  {
    hide Reverse, TurnLabels;
    Slices(done, left, tail);
    OnlyLabel(left);
  }

  /** Reverse the host, then each of its labels: whatever the labels and the tail of the url are,
      afterwards the labels stand in reverse order before the same tail. */
  method ReverseHost(url: array<byte>)
    modifies url
    ensures url[..] == HostReversed(old(url[..]))
    ensures forall labels, tail | HasHost(old(url[..]), labels, tail) :: url[..] == Joined(Backwards(labels)) + tail
  {
    hide Reverse, TurnLabels, ReverseLabels, HasHost, Joined;
    ghost var was := url[..];
    HostsReversed(was);
    var slashIdx := 0;
    while slashIdx < url.Length && url[slashIdx] != SLASH
      invariant 0 <= slashIdx <= url.Length
      invariant SLASH !in url[..slashIdx]
    {
      slashIdx := slashIdx + 1;
    }
    FirstIndexIs(was, SLASH, slashIdx);
    ghost var host, tail := was[..slashIdx], was[slashIdx..];
    assert was == host + tail;
    if slashIdx <= 1 {
      ShortHost(host);
      return;
    }
    ReverseRange(url, 0, slashIdx);
    ghost var turned := Reverse(host);
    TurnReversed(host);
    TurnHost(url, slashIdx, turned, tail);
  }

  /** The loop over the labels of the reversed host. */
  method TurnHost(url: array<byte>, slashIdx: nat, ghost turned: seq<byte>, ghost tail: seq<byte>)
    requires slashIdx <= url.Length && url[..] == turned + tail && |turned| == slashIdx
    modifies url
    ensures url[..] == TurnLabels(turned) + tail
  {
    hide Reverse, TurnLabels;
    ghost var done, left := [], turned;
    assert turned + tail == done + left + tail && done + TurnLabels(left) == TurnLabels(turned);
    var start, i := 0, 0;
    while i <= slashIdx
      invariant 0 <= start <= i <= slashIdx + 1
      invariant i <= slashIdx ==>
                  && Turning(url[..], turned, tail, done, left) && |done| == start && |left| == slashIdx - start
                  && DOT !in left[..i - start]
      invariant i == slashIdx + 1 ==> url[..] == TurnLabels(turned) + tail
    {
      assert i < slashIdx ==> url[..][i] == left[i - start];
      if i == slashIdx || url[i] == DOT {
        ghost var before := url[..];
        ReverseRange(url, start, i);
        if i < slashIdx {
          TurnStep(before, url[..], turned, tail, done, left, i - start);
          done, left := done + Reverse(left[..i - start]) + [DOT], left[i - start + 1..];
        } else {
          assert left[..i - start] == left;
          TurnEnd(before, url[..], turned, tail, done, left);
        }
        start := i + 1;
      } else {
        assert left[..i + 1 - start] == left[..i - start] + [left[i - start]];
      }
      i := i + 1;
    }
  }

  lemma ShortHost(h: seq<byte>)
    requires |h| <= 1
    ensures ReverseLabels(h) == h
  {
  }
}
