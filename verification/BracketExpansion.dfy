/**
 Bracket expansion: a field with alternatives in brackets stands for a list of strings.
 The scanning code is proved against functions on the text, and those against patterns:
 printing a pattern and expanding the text gives exactly the strings it denotes, in order.
 A character stands for a byte.
 */
module BracketExpansion {

  datatype Result = Expanded(fields: seq<string>) | Unclosed(field: string)

  predicate IsEscapable(c: char) {
    c == '[' || c == ']' || c == '|' || c == '\\'
  }

  predicate IsEscapePairAt(s: string, i: nat)
    requires i < |s|
  {
    s[i] == '\\' && i + 1 < |s| && IsEscapable(s[i + 1])
  }

  /** How many characters the unit at the front of `s` has: an escape pair two, any other one. */
  function Unit(s: string): (n: nat)
    requires s != ""
    ensures 1 <= n <= 2 && n <= |s|
  {
    if IsEscapePairAt(s, 0) then 2 else 1
  }

  // ---------------------------------------------------------------- what the scans compute

  function Unescaped(s: string): string {
    if s == "" then "" else [s[Unit(s) - 1]] + Unescaped(s[Unit(s)..])
  }

  function Shifted(n: nat, k: int): int {
    if k < 0 then -1 else n + k
  }

  /** The place of the first '[' that is not escaped, or -1. */
  function FindOpen(s: string): (k: int)
    ensures -1 <= k < |s|
    ensures k >= 0 ==> s[k] == '['
  {
    if s == "" then -1
    else if s[0] == '[' then 0
    else Shifted(Unit(s), FindOpen(s[Unit(s)..]))
  }

  /** The place of the ']' that brings the count of open brackets down to zero, or -1. */
  function FindClose(s: string, count: int): (k: int)
    ensures -1 <= k < |s|
    ensures k >= 0 ==> s[k] == ']'
    ensures k >= 0 && s[0] == '[' ==> k > 0
  {
    if s == "" then -1
    else if s[0] == '[' then Shifted(1, FindClose(s[1..], count + 1))
    else if s[0] == ']' then if count - 1 == 0 then 0 else Shifted(1, FindClose(s[1..], count - 1))
    else Shifted(Unit(s), FindClose(s[Unit(s)..], count))
  }

  function DepthAfter(c: char, depth: int): int {
    if c == '[' then depth + 1 else if c == ']' then depth - 1 else depth
  }

  /** `text` put in front of the first of `parts`. */
  function PrependHead(text: string, parts: seq<string>): (r: seq<string>)
    requires parts != []
    ensures |r| == |parts|
  {
    [text + parts[0]] + parts[1..]
  }

  /** `s` cut at its '|' of depth zero. */
  function Split(s: string, depth: int): (parts: seq<string>)
    ensures parts != [] && forall i :: 0 <= i < |parts| ==> |parts[i]| <= |s|
  {
    if s == "" then [""]
    else if Unit(s) == 1 && s[0] == '|' && depth == 0 then [""] + Split(s[1..], 0)
    else PrependHead(s[..Unit(s)], Split(s[Unit(s)..], if Unit(s) == 1 then DepthAfter(s[0], depth) else depth))
  }

  /** Every string of `heads`, in order, with every one of `tails`, in order, behind it. */
  function Crossed(prefix: string, heads: seq<string>, tails: seq<string>): seq<string> {
    if heads == [] then []
    else Crossed(prefix, heads[..|heads| - 1], tails) + PrefixAll(prefix + heads[|heads| - 1], tails)
  }

  function PrefixAll(prefix: string, tails: seq<string>): (r: seq<string>)
    ensures |r| == |tails| && forall i :: 0 <= i < |r| ==> r[i] == prefix + tails[i]
  {
    seq(|tails|, i requires 0 <= i < |tails| => prefix + tails[i])
  }

  /** The expansion of a field. */
  function Expand(field: string): Result
    decreases |field|, 1, 0
  {
    var start := FindOpen(field);
    if start == -1 then Expanded([Unescaped(field)])
    else
      var length := FindClose(field[start..], 0);
      if length == -1 then Unclosed(field) else ExpandGroup(field, start, start + length)
  }

  /** The expansion of a field whose first group opens at `start` and closes at `end`. */
  function ExpandGroup(field: string, start: nat, end: nat): Result
    requires start < end < |field|
    decreases |field|, 0, 0
  {
    var content := field[start + 1..end];
    match Expand(field[end + 1..])
    case Unclosed(f) => Unclosed(f)
    case Expanded(tails) => ExpandParts(Unescaped(field[..start]), Split(content, 0), tails, |content|)
  }

  /** The expansions of all parts, with the prefix in front and the tails behind. */
  function ExpandParts(prefix: string, parts: seq<string>, tails: seq<string>, ghost bound: nat): Result
    requires forall i :: 0 <= i < |parts| ==> |parts[i]| <= bound
    decreases bound, 2, |parts|
  {
    if parts == [] then Expanded([])
    else
      var last := |parts| - 1;
      match ExpandParts(prefix, parts[..last], tails, bound)
      case Unclosed(f) => Unclosed(f)
      case Expanded(before) =>
        match Expand(parts[last])
        case Unclosed(f) => Unclosed(f)
        case Expanded(heads) => Expanded(before + Crossed(prefix, heads, tails))
  }

  // ---------------------------------------------------------------- the scanning code

  method UnescapeLiteral(s: string) returns (r: string)
    ensures r == Unescaped(s)
  {
    if '\\' !in s {
      NothingEscaped(s);
      return s;
    }
    r := "";
    var i := 0;
    while i < |s|
      invariant 0 <= i <= |s| && r + Unescaped(s[i..]) == Unescaped(s)
    {
      UnitAt(s, i);
      ghost var rest := s[i..];
      if IsEscapePairAt(s, i) {
        i := i + 1;
      }
      r := r + [s[i]];
      i := i + 1;
      assert s[i..] == rest[Unit(rest)..];
    }
  }

  lemma UnitAt(s: string, i: nat)
    requires i < |s|
    ensures Unit(s[i..]) == if IsEscapePairAt(s, i) then 2 else 1
    ensures i + Unit(s[i..]) <= |s| && s[i..][Unit(s[i..])..] == s[i + Unit(s[i..])..]
  {
  }

  lemma {:induction false} NothingEscaped(s: string)
    requires '\\' !in s
    ensures Unescaped(s) == s
    decreases |s|
  {
    if s != "" {
      NothingEscaped(s[1..]);
    }
  }

  method SplitByPipe(s: string) returns (parts: seq<string>)
    ensures parts == Split(s, 0)
  {
    hide Split, PrependHead, Unit;
    parts := [];
    var current, depth, i := "", 0, 0;
    PrependNothing(Split(s, 0));
    assert s[0..] == s;
    while i < |s|
      invariant 0 <= i <= |s|
      invariant parts + PrependHead(current, Split(s[i..], depth)) == Split(s, 0)
    {
      SplitAt(s, i, depth, current);
      if IsEscapePairAt(s, i) {
        current := current + [s[i], s[i + 1]];
        i := i + 2;
      } else {
        var c := s[i];
        if c == '[' {
          depth := depth + 1;
        } else if c == ']' {
          depth := depth - 1;
        }
        if c == '|' && depth == 0 {
          NextPart(parts, current, Split(s[i + 1..], 0));
          parts := parts + [current];
          current := "";
        } else {
          current := current + [c];
        }
        i := i + 1;
      }
    }
    assert s[i..] == "";
    LastPart(current, depth);
    parts := parts + [current];
  }

  /** One unit of the text goes to the current part, or ends it. */
  lemma SplitAt(s: string, i: nat, depth: int, current: string)
    requires i < |s|
    ensures PrependHead(current, Split(s[i..], depth)) ==
      if IsEscapePairAt(s, i) then PrependHead(current + [s[i], s[i + 1]], Split(s[i + 2..], depth))
      else if s[i] == '|' && depth == 0 then PrependHead(current, [""] + Split(s[i + 1..], 0))
      else PrependHead(current + [s[i]], Split(s[i + 1..], DepthAfter(s[i], depth)))
  {
    UnitAt(s, i);
    var t := s[i..];
    if IsEscapePairAt(s, i) {
      assert t[..2] == [s[i], s[i + 1]];
      PrependTwice(current, t[..2], Split(s[i + 2..], depth));
    } else if !(s[i] == '|' && depth == 0) {
      assert t[..1] == [s[i]];
      PrependTwice(current, t[..1], Split(s[i + 1..], DepthAfter(s[i], depth)));
    }
  }

  lemma PrependTwice(a: string, b: string, parts: seq<string>)
    requires parts != []
    ensures PrependHead(a, PrependHead(b, parts)) == PrependHead(a + b, parts)
  {
    assert a + (b + parts[0]) == a + b + parts[0];
  }

  lemma LastPart(current: string, depth: int)
    ensures PrependHead(current, Split("", depth)) == [current]
  {
    assert current + "" == current;
  }

  lemma NextPart(parts: seq<string>, current: string, rest: seq<string>)
    requires rest != []
    ensures parts + PrependHead(current, [""] + rest) == parts + [current] + PrependHead("", rest)
  {
    assert current + "" == current && ([""] + rest)[1..] == rest;
    PrependNothing(rest);
  }

  lemma PrependNothing(parts: seq<string>)
    requires parts != []
    ensures PrependHead("", parts) == parts
  {
    assert "" + parts[0] == parts[0];
  }

  method ExpandField(field: string) returns (result: Result)
    ensures result == Expand(field)
    decreases |field|
  {
    hide ExpandParts, Crossed, Split, Unescaped, FindOpen, FindClose;
    var start := FindFirstOpen(field);
    if start == -1 {
      var literal := UnescapeLiteral(field);
      return Expanded([literal]);
    }
    var end := FindMatchingClose(field, start);
    if end == -1 {
      return Unclosed(field);
    }
    assert Expand(field) == ExpandGroup(field, start, end);
    hide Expand;
    var content := field[start + 1..end];
    var parts := SplitByPipe(content);
    var prefix := UnescapeLiteral(field[..start]);
    var rest := ExpandField(field[end + 1..]);
    if rest.Unclosed? {
      return rest;
    }
    var results: seq<string> := [];
    PartsStart(prefix, parts, rest.fields, |content|);
    for k := 0 to |parts|
      invariant ExpandParts(prefix, parts[..k], rest.fields, |content|) == Expanded(results)
    {
      PartsStep(prefix, parts, rest.fields, |content|, k);
      var inner := ExpandField(parts[k]);
      if inner.Unclosed? {
        PartsFail(prefix, parts, rest.fields, |content|, k + 1);
        return inner;
      }
      var crossed := Cross(prefix, inner.fields, rest.fields);
      results := results + crossed;
    }
    assert parts[..|parts|] == parts;
    result := Expanded(results);
  }

  method FindFirstOpen(field: string) returns (start: int)
    ensures start == FindOpen(field)
  {
    var i := 0;
    while i < |field|
      invariant 0 <= i <= |field|
      invariant FindOpen(field) == Shifted(i, FindOpen(field[i..]))
    {
      UnitAt(field, i);
      if IsEscapePairAt(field, i) {
        i := i + 2;
        continue;
      }
      if field[i] == '[' {
        return i;
      }
      i := i + 1;
    }
    return -1;
  }

  method FindMatchingClose(field: string, start: nat) returns (end: int)
    requires start < |field|
    ensures end == Shifted(start, FindClose(field[start..], 0))
  {
    hide FindClose, Unit;
    var i, count := start, 0;
    while i < |field|
      invariant start <= i <= |field|
      invariant Shifted(start, FindClose(field[start..], 0)) == Shifted(i, FindClose(field[i..], count))
    {
      CloseAt(field, i, count);
      if IsEscapePairAt(field, i) {
        i := i + 2;
        continue;
      }
      if field[i] == '[' {
        count := count + 1;
      } else if field[i] == ']' {
        count := count - 1;
        if count == 0 {
          return i;
        }
      }
      i := i + 1;
    }
    CloseNone(count);
    assert field[i..] == "";
    return -1;
  }

  lemma CloseNone(count: int)
    ensures FindClose("", count) == -1
  {
  }

  lemma CloseAt(field: string, i: nat, count: int)
    requires i < |field|
    ensures FindClose(field[i..], count) ==
      if IsEscapePairAt(field, i) then Shifted(2, FindClose(field[i + 2..], count))
      else if field[i] == ']' && count == 1 then 0
      else Shifted(1, FindClose(field[i + 1..], DepthAfter(field[i], count)))
  {
    UnitAt(field, i);
  }

  method Cross(prefix: string, heads: seq<string>, tails: seq<string>) returns (results: seq<string>)
    ensures results == Crossed(prefix, heads, tails)
  {
    results := [];
    for i := 0 to |heads|
      invariant results == Crossed(prefix, heads[..i], tails)
    {
      assert heads[..i + 1][..i] == heads[..i];
      ghost var before := results;
      for j := 0 to |tails|
        invariant results == before + PrefixAll(prefix + heads[i], tails)[..j]
      {
        results := results + [prefix + heads[i] + tails[j]];
      }
    }
    assert heads[..|heads|] == heads;
  }

  lemma PartsStart(prefix: string, parts: seq<string>, tails: seq<string>, bound: nat)
    ensures ExpandParts(prefix, parts[..0], tails, bound) == Expanded([])
  {
  }

  lemma PartsStep(prefix: string, parts: seq<string>, tails: seq<string>, bound: nat, k: nat)
    requires k < |parts| && forall i :: 0 <= i < |parts| ==> |parts[i]| <= bound
    ensures ExpandParts(prefix, parts[..k + 1], tails, bound) ==
      match ExpandParts(prefix, parts[..k], tails, bound)
      case Unclosed(f) => Unclosed(f)
      case Expanded(before) =>
        match Expand(parts[k])
        case Unclosed(f) => Unclosed(f)
        case Expanded(heads) => Expanded(before + Crossed(prefix, heads, tails))
  {
    assert parts[..k + 1][..k] == parts[..k];
  }

  lemma {:induction false} PartsFail(prefix: string, parts: seq<string>, tails: seq<string>, bound: nat, k: nat)
    requires k <= |parts| && forall i :: 0 <= i < |parts| ==> |parts[i]| <= bound
    requires ExpandParts(prefix, parts[..k], tails, bound).Unclosed?
    ensures ExpandParts(prefix, parts, tails, bound) == ExpandParts(prefix, parts[..k], tails, bound)
    decreases |parts| - k
  {
    if k < |parts| {
      PartsStep(prefix, parts, tails, bound, k);
      PartsFail(prefix, parts, tails, bound, k + 1);
    } else {
      assert parts[..k] == parts;
    }
  }
}
