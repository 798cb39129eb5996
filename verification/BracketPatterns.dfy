/**
 What bracket expansion means: patterns, how they are printed and what they denote; when a
 field is refused; and that cutting at '|' loses nothing.
 */
module BracketPatterns {
  import opened BracketExpansion

  /** Literal texts and groups of one or more alternatives, nested to any depth. */
  datatype Pattern = End | Text(text: string, rest: Pattern) | Group(alternatives: Alternatives, rest: Pattern)
  datatype Alternatives = Last(pattern: Pattern) | More(pattern: Pattern, others: Alternatives)

  function EscapeChar(c: char): string {
    if IsEscapable(c) then ['\\', c] else [c]
  }

  function Escape(text: string): string {
    if text == "" then "" else EscapeChar(text[0]) + Escape(text[1..])
  }

  function Print(p: Pattern): string {
    match p
    case End => ""
    case Text(text, rest) => Escape(text) + Print(rest)
    case Group(alternatives, rest) => "[" + PrintAlternatives(alternatives) + "]" + Print(rest)
  }

  function PrintAlternatives(a: Alternatives): string {
    match a
    case Last(p) => Print(p)
    case More(p, others) => Print(p) + "|" + PrintAlternatives(others)
  }

  /** The strings of a pattern, in order. */
  function Denote(p: Pattern): seq<string> {
    match p
    case End => [""]
    case Text(text, rest) => PrefixAll(text, Denote(rest))
    case Group(alternatives, rest) => DenoteGroup(alternatives, Denote(rest))
  }

  function DenoteGroup(a: Alternatives, tails: seq<string>): seq<string> {
    match a
    case Last(p) => Crossed("", Denote(p), tails)
    case More(p, others) => Crossed("", Denote(p), tails) + DenoteGroup(others, tails)
  }

  function Printed(a: Alternatives): (parts: seq<string>)
    ensures parts != []
  {
    match a
    case Last(p) => [Print(p)]
    case More(p, others) => [Print(p)] + Printed(others)
  }

  // ---------------------------------------------------------------- scanning over printed text

  lemma EscapeUnit(c: char, s: string)
    ensures var e := EscapeChar(c) + s;
            && Unit(e) == |EscapeChar(c)| && e[Unit(e)..] == s && e[..Unit(e)] == EscapeChar(c) && e[Unit(e) - 1] == c
            && e[0] != '[' && e[0] != ']' && e[0] != '|'
  {
  }

  /** Every scan passes over one escaped character. */
  lemma CharScans(c: char, s: string, count: int)
    ensures FindOpen(EscapeChar(c) + s) == Shifted(|EscapeChar(c)|, FindOpen(s))
    ensures FindClose(EscapeChar(c) + s, count) == Shifted(|EscapeChar(c)|, FindClose(s, count))
    ensures Split(EscapeChar(c) + s, count) == PrependHead(EscapeChar(c), Split(s, count))
    ensures Unescaped(EscapeChar(c) + s) == [c] + Unescaped(s)
  {
    hide Unit, EscapeChar, IsEscapable;
    EscapeUnit(c, s);
  }

  lemma {:induction false} TextScans(text: string, s: string, count: int)
    ensures FindOpen(Escape(text) + s) == Shifted(|Escape(text)|, FindOpen(s))
    ensures FindClose(Escape(text) + s, count) == Shifted(|Escape(text)|, FindClose(s, count))
    ensures Split(Escape(text) + s, count) == PrependHead(Escape(text), Split(s, count))
    ensures Unescaped(Escape(text) + s) == text + Unescaped(s)
    decreases |text|
  {
    hide EscapeChar, FindOpen, FindClose, Split, Unescaped, PrependHead;
    if text == "" {
      PrependNothing(Split(s, count));
      assert Escape(text) + s == s;
    } else {
      var e, t := EscapeChar(text[0]), Escape(text[1..]) + s;
      assert Escape(text) + s == e + t;
      CharScans(text[0], t, count);
      TextScans(text[1..], s, count);
      PrependTwice(e, Escape(text[1..]), Split(s, count));
    }
  }

  lemma OpenScan(s: string, count: int)
    ensures FindClose("[" + s, count) == Shifted(1, FindClose(s, count + 1))
    ensures Split("[" + s, count) == PrependHead("[", Split(s, count + 1))
    ensures FindOpen("[" + s) == 0
  {
    var t := "[" + s;
    assert t[1..] == s && t[..1] == "[";
  }

  lemma CloseScan(s: string, count: int)
    ensures FindClose("]" + s, count) == if count == 1 then 0 else Shifted(1, FindClose(s, count - 1))
    ensures Split("]" + s, count) == PrependHead("]", Split(s, count - 1))
  {
    var t := "]" + s;
    assert t[1..] == s && t[..1] == "]";
  }

  lemma BarScan(s: string, count: int)
    ensures FindClose("|" + s, count) == Shifted(1, FindClose(s, count))
    ensures Split("|" + s, count) == if count == 0 then [""] + Split(s, 0) else PrependHead("|", Split(s, count))
  {
    var t := "|" + s;
    assert t[1..] == s && t[..1] == "|";
  }

  /** A printed pattern is passed over: brackets in it are balanced and its bars lie deeper. */
  lemma {:induction false} PatternScans(p: Pattern, s: string, count: int)
    requires count >= 0
    ensures count > 0 ==> FindClose(Print(p) + s, count) == Shifted(|Print(p)|, FindClose(s, count))
    ensures Split(Print(p) + s, count) == PrependHead(Print(p), Split(s, count))
    decreases p
  {
    hide FindClose, Split, PrependHead, Escape;
    match p
    case End =>
      PrependNothing(Split(s, count));
      assert Print(p) + s == s;
    case Text(text, rest) =>
      assert Print(p) + s == Escape(text) + (Print(rest) + s);
      TextScans(text, Print(rest) + s, count);
      PatternScans(rest, s, count);
      PrependTwice(Escape(text), Print(rest), Split(s, count));
    case Group(alternatives, rest) =>
      var s2 := Print(rest) + s;
      var s1 := "]" + s2;
      assert Print(p) + s == "[" + (PrintAlternatives(alternatives) + s1);
      OpenScan(PrintAlternatives(alternatives) + s1, count);
      AlternativesScan(alternatives, s1, count + 1);
      CloseScan(s2, count + 1);
      PatternScans(rest, s, count);
      PrependTwice("]", Print(rest), Split(s, count));
      PrependTwice(PrintAlternatives(alternatives), "]" + Print(rest), Split(s, count));
      PrependTwice("[", PrintAlternatives(alternatives) + ("]" + Print(rest)), Split(s, count));
      assert Print(p) == "[" + (PrintAlternatives(alternatives) + ("]" + Print(rest)));
  }

  lemma {:induction false} AlternativesScan(a: Alternatives, s: string, count: int)
    requires count > 0
    ensures FindClose(PrintAlternatives(a) + s, count) == Shifted(|PrintAlternatives(a)|, FindClose(s, count))
    ensures Split(PrintAlternatives(a) + s, count) == PrependHead(PrintAlternatives(a), Split(s, count))
    decreases a
  {
    hide FindClose, Split, PrependHead;
    match a
    case Last(p) =>
      PatternScans(p, s, count);
    case More(p, others) =>
      var s1 := PrintAlternatives(others) + s;
      assert PrintAlternatives(a) + s == Print(p) + ("|" + s1);
      PatternScans(p, "|" + s1, count);
      BarScan(s1, count);
      AlternativesScan(others, s, count);
      PrependTwice("|", PrintAlternatives(others), Split(s, count));
      PrependTwice(Print(p), "|" + PrintAlternatives(others), Split(s, count));
      assert PrintAlternatives(a) == Print(p) + ("|" + PrintAlternatives(others));
  }

  /** The content of a group is cut into its alternatives. */
  lemma {:induction false} AlternativesSplit(a: Alternatives)
    ensures Split(PrintAlternatives(a), 0) == Printed(a)
    decreases a
  {
    hide Split, PrependHead;
    match a
    case Last(p) =>
      assert Print(p) + "" == Print(p);
      PatternScans(p, "", 0);
      LastPart(Print(p), 0);
    case More(p, others) =>
      var s1 := PrintAlternatives(others);
      assert PrintAlternatives(a) == Print(p) + ("|" + s1);
      PatternScans(p, "|" + s1, 0);
      BarScan(s1, 0);
      AlternativesSplit(others);
      HeadPart(Print(p), Printed(others));
  }

  lemma HeadPart(text: string, rest: seq<string>)
    ensures PrependHead(text, [""] + rest) == [text] + rest
  {
    assert text + "" == text && ([""] + rest)[1..] == rest;
  }

  // ---------------------------------------------------------------- the round trip

  lemma {:induction false} CrossedPrefixed(text: string, prefix: string, heads: seq<string>, tails: seq<string>)
    ensures Crossed(text + prefix, heads, tails) == PrefixAll(text, Crossed(prefix, heads, tails))
    decreases |heads|
  {
    if heads != [] {
      var last := |heads| - 1;
      CrossedPrefixed(text, prefix, heads[..last], tails);
      PrefixTwice(text, prefix + heads[last], tails);
      assert text + prefix + heads[last] == text + (prefix + heads[last]);
      PrefixConcat(text, Crossed(prefix, heads[..last], tails), PrefixAll(prefix + heads[last], tails));
    }
  }

  lemma PrefixTwice(a: string, b: string, tails: seq<string>)
    ensures PrefixAll(a + b, tails) == PrefixAll(a, PrefixAll(b, tails))
  {
    var l, r := PrefixAll(a + b, tails), PrefixAll(a, PrefixAll(b, tails));
    forall i | 0 <= i < |tails| ensures l[i] == r[i] {
      assert a + b + tails[i] == a + (b + tails[i]);
    }
  }

  lemma PrefixConcat(text: string, a: seq<string>, b: seq<string>)
    ensures PrefixAll(text, a + b) == PrefixAll(text, a) + PrefixAll(text, b)
  {
  }

  lemma {:induction false} PartsPrefixed(text: string, prefix: string, parts: seq<string>, tails: seq<string>,
                                         bound: nat)
    requires forall i :: 0 <= i < |parts| ==> |parts[i]| <= bound
    requires ExpandParts(prefix, parts, tails, bound).Expanded?
    ensures ExpandParts(text + prefix, parts, tails, bound)
            == Expanded(PrefixAll(text, ExpandParts(prefix, parts, tails, bound).fields))
    decreases |parts|
  {
    hide Expand, Crossed;
    if parts != [] {
      var last := |parts| - 1;
      PartsPrefixed(text, prefix, parts[..last], tails, bound);
      var before, heads := ExpandParts(prefix, parts[..last], tails, bound).fields, Expand(parts[last]).fields;
      CrossedPrefixed(text, prefix, heads, tails);
      PrefixConcat(text, before, Crossed(prefix, heads, tails));
    }
  }

  lemma GroupPrefixed(text: string, s: string, start: nat, end: nat)
    requires start < end < |s| && ExpandGroup(s, start, end).Expanded?
    ensures ExpandGroup(Escape(text) + s, |Escape(text)| + start, |Escape(text)| + end)
         == Expanded(PrefixAll(text, ExpandGroup(s, start, end).fields))
  {
    hide Escape, FindOpen, FindClose, Split, Unescaped, ExpandParts, Expand;
    var e, field := Escape(text), Escape(text) + s;
    assert field[|e| + end + 1..] == s[end + 1..];
    assert field[|e| + start + 1..|e| + end] == s[start + 1..end];
    assert field[..|e| + start] == e + s[..start];
    TextScans(text, s[..start], 0);
    PartsPrefixed(text, Unescaped(s[..start]), Split(s[start + 1..end], 0), Expand(s[end + 1..]).fields,
      |s[start + 1..end]|);
  }

  lemma ExpandAt(field: string, start: nat, end: nat)
    requires start < end < |field| && FindOpen(field) == start && FindClose(field[start..], 0) == end - start
    ensures Expand(field) == ExpandGroup(field, start, end)
  {
    hide FindOpen, FindClose, ExpandGroup, Unescaped;
  }

  lemma ExpandLiteral(field: string)
    requires FindOpen(field) == -1
    ensures Expand(field) == Expanded([Unescaped(field)])
  {
    hide FindOpen, FindClose, ExpandGroup, Unescaped;
  }

  lemma ExpandOpen(field: string)
    requires FindOpen(field) >= 0 && FindClose(field[FindOpen(field)..], 0) == -1
    ensures Expand(field) == Unclosed(field)
  {
    hide FindOpen, FindClose, ExpandGroup, Unescaped;
  }

  /** A literal text in front of a field goes in front of all its strings. */
  lemma ExpandText(text: string, s: string)
    requires Expand(s).Expanded?
    ensures Expand(Escape(text) + s) == Expanded(PrefixAll(text, Expand(s).fields))
  {
    hide Escape, FindOpen, FindClose, Split, Unescaped, ExpandParts, Expand, ExpandGroup;
    var e, field := Escape(text), Escape(text) + s;
    TextScans(text, s, 0);
    var start := FindOpen(s);
    if start == -1 {
      ExpandLiteral(s);
      ExpandLiteral(field);
    } else if FindClose(s[start..], 0) == -1 {
      ExpandOpen(s);
    } else {
      var end := start + FindClose(s[start..], 0);
      assert field[|e| + start..] == s[start..];
      ExpandAt(s, start, end);
      ExpandAt(field, |e| + start, |e| + end);
      GroupPrefixed(text, s, start, end);
    }
  }

  lemma {:induction false} PartsInFront(part: string, parts: seq<string>, tails: seq<string>, bound: nat)
    requires |part| <= bound && forall i :: 0 <= i < |parts| ==> |parts[i]| <= bound
    requires Expand(part).Expanded? && ExpandParts("", parts, tails, bound).Expanded?
    ensures ExpandParts("", [part] + parts, tails, bound)
         == Expanded(Crossed("", Expand(part).fields, tails) + ExpandParts("", parts, tails, bound).fields)
    decreases |parts|
  {
    hide Expand, Crossed, ExpandParts;
    var all := [part] + parts;
    if parts != [] {
      var front := parts[..|parts| - 1];
      assert all[..|all| - 1] == [part] + front;
      PartsUnfold(all, tails, bound);
      PartsUnfold(parts, tails, bound);
      PartsInFront(part, front, tails, bound);
    } else {
      PartsOfOne(part, tails, bound);
      assert all == [part];
    }
  }

  lemma PartsUnfold(parts: seq<string>, tails: seq<string>, bound: nat)
    requires parts != [] && forall i :: 0 <= i < |parts| ==> |parts[i]| <= bound
    ensures var last := |parts| - 1;
            ExpandParts("", parts, tails, bound) ==
            match ExpandParts("", parts[..last], tails, bound)
            case Unclosed(f) => Unclosed(f)
            case Expanded(before) =>
              match Expand(parts[last])
              case Unclosed(f) => Unclosed(f)
              case Expanded(heads) => Expanded(before + Crossed("", heads, tails))
  {
    hide Expand, Crossed;
  }

  lemma PartsOfOne(part: string, tails: seq<string>, bound: nat)
    requires |part| <= bound && Expand(part).Expanded?
    ensures ExpandParts("", [part], tails, bound) == Expanded(Crossed("", Expand(part).fields, tails))
    ensures ExpandParts("", [], tails, bound) == Expanded([])
  {
    hide Expand, Crossed;
    assert [part][..0] == [];
  }

  lemma GroupExpands(content: string, s: string)
    requires FindClose(content + ("]" + s), 1) == |content| && Expand(s).Expanded?
    ensures Expand("[" + (content + ("]" + s))) == ExpandParts("", Split(content, 0), Expand(s).fields, |content|)
  {
    hide FindOpen, FindClose, Split, ExpandParts, Expand;
    var field := "[" + (content + ("]" + s));
    OpenScan(content + ("]" + s), 0);
    assert field[0..] == field && field[1..1 + |content|] == content && field[..0] == "" && field[|content| + 2..] == s;
    ExpandAt(field, 0, |content| + 1);
  }

  lemma ExpandEnd()
    ensures Expand("") == Expanded([""])
  {
  }

  /** Expanding the printed text of a pattern gives exactly the strings it denotes, in order. */
  lemma {:induction false} ExpandPrint(p: Pattern)
    ensures Expand(Print(p)) == Expanded(Denote(p))
    decreases p
  {
    hide Escape, FindOpen, FindClose, Split, Expand, ExpandParts, Crossed;
    match p
    case End =>
      ExpandEnd();
    case Text(text, rest) =>
      ExpandPrint(rest);
      ExpandText(text, Print(rest));
    case Group(alternatives, rest) =>
      ExpandPrint(rest);
      var content, s := PrintAlternatives(alternatives), Print(rest);
      assert Print(p) == "[" + (content + ("]" + s));
      AlternativesScan(alternatives, "]" + s, 1);
      CloseScan(s, 1);
      GroupExpands(content, s);
      AlternativesSplit(alternatives);
      ExpandAlternatives(alternatives, Denote(rest), |content|);
  }

  lemma {:induction false} ExpandAlternatives(a: Alternatives, tails: seq<string>, bound: nat)
    requires |PrintAlternatives(a)| <= bound
    ensures forall i :: 0 <= i < |Printed(a)| ==> |Printed(a)[i]| <= bound
    ensures ExpandParts("", Printed(a), tails, bound) == Expanded(DenoteGroup(a, tails))
    decreases a
  {
    hide Expand, ExpandParts, Crossed;
    match a
    case Last(p) =>
      ExpandPrint(p);
      PartsOfOne(Print(p), tails, bound);
    case More(p, others) =>
      ExpandPrint(p);
      ExpandAlternatives(others, tails, bound);
      PartsInFront(Print(p), Printed(others), tails, bound);
  }

  // ---------------------------------------------------------------- cutting loses nothing

  function Join(parts: seq<string>): string
    requires parts != []
  {
    if |parts| == 1 then parts[0] else parts[0] + "|" + Join(parts[1..])
  }

  lemma JoinPrepended(text: string, parts: seq<string>)
    requires parts != []
    ensures Join(PrependHead(text, parts)) == text + Join(parts)
  {
    var r := PrependHead(text, parts);
    assert r[1..] == parts[1..];
    if |parts| > 1 {
      assert text + parts[0] + "|" + Join(parts[1..]) == text + (parts[0] + "|" + Join(parts[1..]));
    }
  }

  /** The parts, joined by '|', are the text again. */
  lemma {:induction false} SplitJoins(s: string, depth: int)
    ensures Join(Split(s, depth)) == s
    decreases |s|
  {
    hide Join, PrependHead;
    if s == "" {
      JoinOne("");
    } else if Unit(s) == 1 && s[0] == '|' && depth == 0 {
      SplitJoins(s[1..], 0);
      JoinTwo("", Split(s[1..], 0));
      assert s == "|" + s[1..];
    } else {
      var rest := Split(s[Unit(s)..], if Unit(s) == 1 then DepthAfter(s[0], depth) else depth);
      SplitJoins(s[Unit(s)..], if Unit(s) == 1 then DepthAfter(s[0], depth) else depth);
      JoinPrepended(s[..Unit(s)], rest);
      assert s == s[..Unit(s)] + s[Unit(s)..];
    }
  }

  lemma JoinOne(part: string)
    ensures Join([part]) == part
  {
  }

  lemma JoinTwo(part: string, rest: seq<string>)
    requires rest != []
    ensures Join([part] + rest) == part + "|" + Join(rest)
  {
    assert ([part] + rest)[1..] == rest;
  }

  // ---------------------------------------------------------------- when a field is refused

  /** How many brackets are open at the end of `s`, a ']' with none open counting as text. */
  function OpenAtEnd(s: string, depth: nat): nat {
    if s == "" then depth
    else if s[0] == '[' then OpenAtEnd(s[1..], depth + 1)
    else if s[0] == ']' then OpenAtEnd(s[1..], if depth > 0 then depth - 1 else 0)
    else OpenAtEnd(s[Unit(s)..], depth)
  }

  /** No bracket is ever closed that is not open, and none is open at the end. */
  predicate Balanced(s: string, depth: nat) {
    if s == "" then depth == 0
    else if s[0] == '[' then Balanced(s[1..], depth + 1)
    else if s[0] == ']' then depth > 0 && Balanced(s[1..], depth - 1)
    else Balanced(s[Unit(s)..], depth)
  }

  function NextDepth(s: string, depth: int): int
    requires s != ""
  {
    if Unit(s) == 1 then DepthAfter(s[0], depth) else depth
  }

  lemma BalancedUnit(s: string, depth: nat)
    requires s != "" && !(s[0] == ']' && depth == 0)
    ensures NextDepth(s, depth) >= 0 && (Balanced(s, depth) <==> Balanced(s[Unit(s)..], NextDepth(s, depth)))
    ensures OpenAtEnd(s, depth) == OpenAtEnd(s[Unit(s)..], NextDepth(s, depth))
  {
  }

  lemma BalancedNoClose(s: string)
    requires s != "" && Balanced(s, 0)
    ensures s[0] != ']'
  {
  }

  lemma CloseUnit(s: string, count: int)
    requires s != ""
    ensures FindClose(s, count) == if s[0] == ']' && count == 1 then 0
                                   else Shifted(Unit(s), FindClose(s[Unit(s)..], NextDepth(s, count)))
  {
  }

  lemma SplitUnit(s: string, depth: int)
    requires s != ""
    ensures Split(s, depth) ==
      if s[0] == '|' && depth == 0 then [""] + Split(s[1..], 0)
      else PrependHead(s[..Unit(s)], Split(s[Unit(s)..], NextDepth(s, depth)))
    ensures s[0] == '|' ==> Unit(s) == 1 && NextDepth(s, depth) == depth
  {
  }

  lemma {:induction false} BalancedIsClosed(s: string, depth: nat)
    requires Balanced(s, depth)
    ensures OpenAtEnd(s, depth) == 0
    decreases |s|
  {
    if s != "" {
      if s[0] == '[' {
        BalancedIsClosed(s[1..], depth + 1);
      } else if s[0] == ']' {
        BalancedIsClosed(s[1..], depth - 1);
      } else {
        BalancedIsClosed(s[Unit(s)..], depth);
      }
    }
  }

  /** Up to the first '[' nothing is open. */
  lemma {:induction false} NothingOpenBefore(s: string)
    ensures FindOpen(s) == -1 ==> OpenAtEnd(s, 0) == 0
    ensures FindOpen(s) >= 0 ==> OpenAtEnd(s, 0) == OpenAtEnd(s[FindOpen(s)..], 0)
    decreases |s|
  {
    if s != "" && s[0] != '[' {
      NothingOpenBefore(s[Unit(s)..]);
      if FindOpen(s) >= 0 {
        assert s[Unit(s)..][FindOpen(s[Unit(s)..])..] == s[FindOpen(s)..];
      }
    }
  }

  /** The place where the count comes down to zero cuts the text into a balanced part and
      the rest; if there is none, brackets stay open. */
  lemma {:induction false} CloseCuts(s: string, count: nat)
    requires count > 0
    ensures FindClose(s, count) == -1 ==> OpenAtEnd(s, count) > 0
    ensures FindClose(s, count) >= 0 ==>
      var k := FindClose(s, count);
      Balanced(s[..k], count - 1) && OpenAtEnd(s, count) == OpenAtEnd(s[k + 1..], 0)
    decreases |s|
  {
    hide Unit, FindClose, OpenAtEnd, Balanced;
    if s == "" {
      NothingToClose(count);
    } else {
      var k := FindClose(s, count);
      CloseUnit(s, count);
      BalancedUnit(s, count);
      if s[0] == ']' && count == 1 {
        ClosedHere(s);
      } else {
        CloseCuts(s[Unit(s)..], NextDepth(s, count));
        if k >= 0 {
          CutAt(s, Unit(s), k);
          UnitCut(s, k);
          BalancedUnit(s[..k], count - 1);
        }
      }
    }
  }

  lemma NothingToClose(count: nat)
    requires count > 0
    ensures FindClose("", count) == -1 && OpenAtEnd("", count) > 0
  {
  }

  lemma ClosedHere(s: string)
    requires s != "" && s[0] == ']'
    ensures Balanced(s[..0], 0) && OpenAtEnd(s, 1) == OpenAtEnd(s[1..], 0)
  {
  }

  lemma CutAt(s: string, u: nat, k: int)
    requires u <= |s| && k < |s|
    ensures u <= k ==> s[..k][u..] == s[u..][..k - u] && s[u..][k - u + 1..] == s[k + 1..]
  {
  }

  lemma UnitCut(s: string, k: nat)
    requires s != "" && Unit(s) <= k <= |s|
    ensures Unit(s[..k]) == Unit(s) && s[..k][0] == s[0]
  {
  }

  /** The parts of a balanced text are balanced. */
  lemma {:induction false} PartsBalanced(s: string, depth: nat, i: nat)
    requires Balanced(s, depth) && i < |Split(s, depth)|
    ensures Balanced(Split(s, depth)[i], if i == 0 then depth else 0)
    decreases |s|
  {
    hide Split, Balanced, Unit;
    if s == "" {
      PartOfNothing(depth);
    } else {
      if depth == 0 {
        BalancedNoClose(s);
      }
      BalancedUnit(s, depth);
      SplitUnit(s, depth);
      if s[0] == '|' && depth == 0 {
        if i > 0 {
          PartsBalanced(s[1..], 0, i - 1);
        } else {
          PartOfNothing(0);
        }
      } else {
        PartsBalanced(s[Unit(s)..], NextDepth(s, depth), i);
        if i == 0 {
          HeadIsPrefix(s[Unit(s)..], NextDepth(s, depth));
          BalancedPrepended(s, Split(s[Unit(s)..], NextDepth(s, depth))[0], depth);
        }
      }
    }
  }

  lemma PartOfNothing(depth: nat)
    ensures Split("", depth) == [""] && Balanced("", 0)
    ensures Balanced("", depth) ==> depth == 0
  {
  }

  lemma BalancedPrepended(s: string, part: string, depth: nat)
    requires s != "" && !(s[0] == ']' && depth == 0) && part <= s[Unit(s)..]
    requires Balanced(part, NextDepth(s, depth))
    ensures Balanced(s[..Unit(s)] + part, depth)
  {
    var t := s[..Unit(s)] + part;
    assert t[Unit(s)..] == part;
    assert |t| > 1 ==> t[1] == s[1];
    assert Unit(t) == Unit(s);
    BalancedUnit(t, depth);
  }

  lemma {:induction false} HeadIsPrefix(s: string, depth: int)
    ensures Split(s, depth)[0] <= s
    decreases |s|
  {
    if s != "" && !(Unit(s) == 1 && s[0] == '|' && depth == 0) {
      HeadIsPrefix(s[Unit(s)..], if Unit(s) == 1 then DepthAfter(s[0], depth) else depth);
    }
  }

  /** A field is refused exactly when a bracket is left open at its end. */
  lemma {:induction false} RefusedIff(field: string)
    ensures Expand(field).Unclosed? <==> OpenAtEnd(field, 0) > 0
    decreases |field|, 1
  {
    hide FindOpen, FindClose, Split, Balanced, OpenAtEnd, Unescaped, ExpandParts, Expand;
    NothingOpenBefore(field);
    var start := FindOpen(field);
    if start == -1 {
      ExpandLiteral(field);
    } else {
      var s := field[start + 1..];
      assert field[start..] == "[" + s;
      OpenScan(s, 0);
      OpenGrows(s);
      CloseCuts(s, 1);
      var k := FindClose(s, 1);
      if k == -1 {
        ExpandOpen(field);
      } else {
        var end := start + 1 + k;
        ExpandAt(field, start, end);
        assert field[start + 1..end] == s[..k] && field[end + 1..] == s[k + 1..];
        RefusedIff(field[end + 1..]);
        if Expand(field[end + 1..]).Expanded? {
          BalancedExpands(Unescaped(field[..start]), s[..k], Expand(field[end + 1..]).fields);
        }
      }
    }
  }

  lemma OpenGrows(s: string)
    ensures OpenAtEnd("[" + s, 0) == OpenAtEnd(s, 1)
  {
    assert ("[" + s)[1..] == s;
  }

  lemma {:induction false} BalancedExpands(prefix: string, content: string, tails: seq<string>)
    requires Balanced(content, 0)
    ensures ExpandParts(prefix, Split(content, 0), tails, |content|).Expanded?
    decreases |content|, 3
  {
    hide Expand, Split, Balanced;
    var parts := Split(content, 0);
    forall i | 0 <= i < |parts| ensures Expand(parts[i]).Expanded? {
      PartsBalanced(content, 0, i);
      BalancedIsClosed(parts[i], 0);
      RefusedIff(parts[i]);
    }
    PartsExpand(prefix, parts, tails, |content|);
  }

  lemma {:induction false} PartsExpand(prefix: string, parts: seq<string>, tails: seq<string>, bound: nat)
    requires forall i :: 0 <= i < |parts| ==> |parts[i]| <= bound && Expand(parts[i]).Expanded?
    ensures ExpandParts(prefix, parts, tails, bound).Expanded?
    decreases |parts|
  {
    hide Expand, Crossed;
    if parts != [] {
      PartsExpand(prefix, parts[..|parts| - 1], tails, bound);
    }
  }

  // ---------------------------------------------------------------- what is kept as it is

  /** No backslash stands in front of a bracket, a bar or a backslash. */
  predicate NothingEscapes(s: string) {
    forall i :: 0 <= i < |s| - 1 && s[i] == '\\' ==> s[i + 1] !in {'[', ']', '|', '\\'}
  }

  lemma {:induction false} KeptAsIs(s: string)
    requires NothingEscapes(s)
    ensures Unescaped(s) == s
    ensures '[' !in s ==> FindOpen(s) == -1
    decreases |s|
  {
    if s != "" {
      assert Unit(s) == 1 && s == [s[0]] + s[1..];
      assert forall i :: 0 <= i < |s[1..]| ==> s[1..][i] == s[i + 1];
      KeptAsIs(s[1..]);
    }
  }

  /** A field with no group and nothing escaped stands for itself alone. */
  lemma ExpandsToItself(field: string)
    requires '[' !in field && NothingEscapes(field)
    ensures Expand(field) == Expanded([field])
  {
    KeptAsIs(field);
    ExpandLiteral(field);
  }

  /** Only the backslash of an escape pair is dropped. */
  lemma {:induction false} EscapeDropped(s: string, c: char, rest: string)
    requires '\\' !in s && c in {'[', ']', '|', '\\'}
    ensures Unescaped(s + (['\\', c] + rest)) == s + ([c] + Unescaped(rest))
    decreases |s|
  {
    var pair := ['\\', c] + rest;
    if s == "" {
      assert s + pair == pair && pair[2..] == rest;
    } else {
      hide Unescaped;
      EscapeDropped(s[1..], c, rest);
      assert (s + pair)[1..] == s[1..] + pair;
      UnescapedNext(s + pair);
      assert s == [s[0]] + s[1..];
      assert ([s[0]] + s[1..]) + ([c] + Unescaped(rest)) == [s[0]] + (s[1..] + ([c] + Unescaped(rest)));
    }
  }

  lemma UnescapedNext(s: string)
    requires s != "" && s[0] != '\\'
    ensures Unescaped(s) == [s[0]] + Unescaped(s[1..])
  {
  }

  /** The strings of a group and what follows it: the first varies slowest. */
  lemma {:induction false} CrossedAt(prefix: string, heads: seq<string>, tails: seq<string>, i: nat, j: nat)
    requires i < |heads| && j < |tails|
    ensures |Crossed(prefix, heads, tails)| == |heads| * |tails|
    ensures 0 <= i * |tails| + j < |heads| * |tails|
    ensures Crossed(prefix, heads, tails)[i * |tails| + j] == prefix + heads[i] + tails[j]
    decreases |heads|
  {
    var last := |heads| - 1;
    CrossedLength(prefix, heads, tails);
    CrossedLength(prefix, heads[..last], tails);
    PlaceInBlock(i, j, |heads|, |tails|);
    if i < last {
      CrossedAt(prefix, heads[..last], tails, i, j);
    }
  }

  lemma {:induction false} CrossedLength(prefix: string, heads: seq<string>, tails: seq<string>)
    ensures |Crossed(prefix, heads, tails)| == |heads| * |tails|
    decreases |heads|
  {
    if heads != [] {
      CrossedLength(prefix, heads[..|heads| - 1], tails);
      TimesNext(|heads| - 1, |tails|);
    }
  }

  lemma TimesNext(m: nat, n: nat)
    ensures (m + 1) * n == m * n + n
  {
  }

  lemma {:induction false} PlaceInBlock(i: nat, j: nat, m: nat, n: nat)
    requires i < m && j < n
    ensures 0 <= i * n + j < i * n + n <= m * n
  {
    TimesNext(m - 1, n);
    if i < m - 1 {
      PlaceInBlock(i, j, m - 1, n);
    }
  }
}
