/**
 What goes on from line to line: the arguments of a call with a quoted text on each line, and a
 raw text; and what is refused.
 */
module TokenLines {
  import opened Common
  import opened TokenSteps
  import opened TokenParts
  import opened TokenReading

  // ---------------------------------------------------------------- a call over several lines

  /** A quoted argument on a line of its own. */
  datatype ArgLine = ArgLine(indent: string, text: string, comma: bool) {
    function Shown(): string {
      "\"" + (text + "\"") + if comma then "," else ""
    }

    function Text(): string {
      indent + Shown()
    }
  }

  predicate AllBlank(s: string) {
    forall i :: 0 <= i < |s| ==> IsBlank(s[i])
  }

  predicate ArgLinesOk(args: seq<ArgLine>) {
    forall k :: 0 <= k < |args| ==> AllBlank(args[k].indent) && QuotedWord(args[k].text)
  }

  function ArgTexts(args: seq<ArgLine>): seq<string> {
    seq(|args|, k requires 0 <= k < |args| => args[k].Text())
  }

  /** The arguments one after the other, with one comma between two of them, written or not. */
  function Listed(args: seq<ArgLine>): string {
    if args == [] then ""
    else
      var last := |args| - 1;
      Listed(args[..last]) + (if last > 0 && !args[last - 1].comma then "," else "") + args[last].Shown()
  }

  /** The call is open, with `args` so far. */
  function InCall(name: string, args: string, braces: seq<Position>, start: Position, origin: Position): Pending {
    Pending(None, "", [origin], braces, args, [Part(name, CallFlag, "", |braces|, start)])
  }

  lemma {:induction false} TrimLeftBlanks(s: string, v: string)
    requires AllBlank(s) && (v == "" || !IsBlank(v[0]))
    ensures TrimLeft(s + v, IsBlank) == v
    decreases |s|
  {
    if s == "" {
      assert s + v == v;
    } else {
      assert (s + v)[1..] == s[1..] + v;
      TrimLeftBlanks(s[1..], v);
    }
  }

  /** Trimming stops at the first character that is no space. */
  lemma TrimKeepsFirst(s: string, v: string)
    requires AllSpaces(s) && v != "" && !IsSpace(v[0])
    ensures TrimSpace(s + v) != "" && TrimSpace(s + v)[0] == v[0]
  {
    hide IsSpace;
    TrimLeftSpaces(s, v);
    TrimRightPart(v, IsSpace);
    KeepsRight(v, 0);
  }

  lemma BlanksAreSpaces(s: string)
    requires AllBlank(s)
    ensures AllSpaces(s)
  {
  }

  lemma TrimRightBlanks(s: string, c: char)
    requires !IsBlank(c)
    ensures TrimRight(s + [c], IsBlank) == s + [c]
  {
  }

  /** A comma is put in exactly when an argument without one is followed by a quoted line. */
  lemma CommaNeeded(existing: string, arg: ArgLine)
    requires AllBlank(arg.indent)
    requires existing != "" ==> !IsBlank(existing[|existing| - 1])
    ensures NeedsAutoComma(existing, arg.Text()) <==> existing != "" && existing[|existing| - 1] != ','
    ensures IsValidContinuation(arg.Text())
    ensures TrimLeft(arg.Text(), IsBlank) == arg.Shown()
  {
    hide TrimSpace, IsSpace;
    QuoteIsNoSpace();
    BlanksAreSpaces(arg.indent);
    TrimKeepsFirst(arg.indent, arg.Shown());
    TrimLeftBlanks(arg.indent, arg.Shown());
    var t := TrimSpace(arg.Text());
    assert t[..1] == "\"";
    if existing != "" {
      var n := |existing| - 1;
      TrimRightBlanks(existing[..n], existing[n]);
      assert existing == existing[..n] + [existing[n]];
    }
  }

  /** A quoted text inside the parentheses leaves them as they were. */
  lemma {:induction false} QuotedArg(a: string, q: string)
    requires ArgScan(a) == Some(INSIDE) && QuoteScan(q).Some?
    ensures ArgScan(a + ("\"" + q)) == Some(ArgState(1, true, QuoteScan(q).value))
    decreases |q|
  {
    hide ArgScan, QuoteScan;
    if q == "" {
      ArgScanNext(a, '"');
      assert a + ("\"" + q) == a + ['"'];
      QuoteScanNothing();
    } else {
      var n := |q| - 1;
      QuotePrefix(q, n);
      QuotedArg(a, q[..n]);
      assert q == q[..n] + [q[n]];
      QuoteScanNext(q[..n], q[n]);
      ArgScanNext(a + ("\"" + q[..n]), q[n]);
      assert a + ("\"" + q) == a + ("\"" + q[..n]) + [q[n]];
    }
  }

  lemma QuoteScanNothing()
    ensures QuoteScan("") == Some(false)
  {
  }

  lemma ArgAdded(a: string, arg: ArgLine)
    requires ArgScan(a) == Some(INSIDE) && QuotedWord(arg.text)
    ensures ArgScan(a + arg.Shown()) == Some(INSIDE) && ArgScan(a + ",") == Some(INSIDE)
  {
    hide ArgScan;
    QuotedArg(a, arg.text);
    var b := a + ("\"" + arg.text);
    ArgScanNext(b, '"');
    ArgScanNext(b + ['"'], ',');
    ArgScanNext(a, ',');
    if arg.comma {
      assert a + arg.Shown() == b + ['"'] + [','];
    } else {
      assert a + arg.Shown() == b + ['"'];
    }
  }

  lemma {:induction false} ListedOk(args: seq<ArgLine>)
    requires ArgLinesOk(args)
    ensures ArgScan(Listed(args)) == Some(INSIDE)
    ensures var l := Listed(args);
            if args == [] then l == ""
            else l != "" && l[|l| - 1] == if args[|args| - 1].comma then ',' else '"'
    decreases |args|
  {
    hide ArgScan;
    if args == [] {
      ArgScanNothing();
    } else {
      var last := |args| - 1;
      ListedOk(args[..last]);
      ArgAdded(Listed(args[..last]), args[last]);
      ArgAdded(Listed(args[..last]) + ",", args[last]);
      assert Listed(args[..last]) + "" == Listed(args[..last]);
    }
  }

  lemma ScanAll(c: Core, ctx: Context, s: string)
    ensures ScanTo(c, ctx, s, |s|) == Scan(c, ctx, 0, s)
  {
    hide Scan, ScanTo;
    ScanToIsScan(c, ctx, s, |s|);
    assert s[..|s|] == s;
  }

  /** A line with the next argument. */
  lemma NextArg(name: string, args: seq<ArgLine>, k: nat, braces: seq<Position>, start: Position, origin: Position,
                lineNum: int)
    requires ArgLinesOk(args) && k < |args|
    ensures Tokenized(InCall(name, Listed(args[..k]), braces, start, origin), lineNum, args[k].Text()) ==
            Line(InCall(name, Listed(args[..k + 1]), braces, start, origin), [])
  {
    hide Scan, ScanTo, ArgScan, TrimLeft, NeedsAutoComma, IsValidContinuation, HasSpacePrefix, Listed, TrimSpace;
    hide QuotedWord, ArgLine.Shown, ArgLine.Text;
    var p := InCall(name, Listed(args[..k]), braces, start, origin);
    ListedOk(args[..k]);
    ListedOk(args[..k + 1]);
    ListedNext(args, k);
    CommaNeeded(Listed(args[..k]), args[k]);
    var begun := Listed(args[..k]) + if k > 0 && !args[k - 1].comma then "," else "";
    assert BeginLine(p, args[k].Text()) == p.(args := begun);
    assert LineText(p, args[k].Text()) == args[k].Shown();
    var ctx := Context(lineNum, HasSpacePrefix(args[k].Text()), args[k].Shown());
    var c := Core(p.(args := begun), [], "", false, false, 0);
    ArgAdded(Listed(args[..k]), args[k]);
    ArgsGoOn(c, ctx, 0, begun, args[k].Shown(), p.padding, origin, braces, []);
    ScanAll(c, ctx, args[k].Shown());
    ReadSoFar(Scan(c, ctx, 0, args[k].Shown()).core, Listed(args[..k + 1]), p.padding, origin, braces, ctx);
  }

  lemma ListedNext(args: seq<ArgLine>, k: nat)
    requires k < |args|
    ensures Listed(args[..k + 1]) ==
            Listed(args[..k]) + (if k > 0 && !args[k - 1].comma then "," else "") + args[k].Shown()
  {
    assert args[..k + 1][..k] == args[..k];
  }

  lemma ReadSoFar(c: Core, args: string, padding: seq<Part>, origin: Position, braces: seq<Position>, ctx: Context)
    requires Reading(c, args, padding, origin, braces, []) && ArgScan(args) == Some(INSIDE)
    ensures c.p == Pending(None, "", [origin], braces, args, padding) && !c.inQuote && Flushed(c, ctx).parts == []
  {
    hide ArgScan;
    BlankIff("");
  }

  /** The line that opens the call. */
  lemma CallOpens(indent: string, name: string, braces: seq<Position>, lineNum: int)
    requires AllBlank(indent) && Word(name)
    ensures var text := indent + (name + "(");
            var ctx := Context(lineNum, HasSpacePrefix(text), text);
            Tokenized(Rest(braces), lineNum, text) ==
            Line(InCall(name, "", braces, ctx.At(|indent|), ctx.At(|indent| + |name|)), [])
  {
    hide Scan, ScanTo, ArgScan, TrimSpace, HasSpacePrefix, Word, IsSpace, StepChar, AllBlank, Clean;
    var text := indent + (name + "(");
    var ctx := Context(lineNum, HasSpacePrefix(text), text);
    var c := InText(braces, [], "", 0);
    TextIsBetween(braces, [], 0, ctx);
    BlanksAreSpaces(indent);
    GapReads(c, ctx, 0, indent, braces, []);
    var d := Scan(c, ctx, 0, indent).core;
    CleanIsText(d, ctx, braces, []);
    assert TrimSpace(d.buf) == "" by { CleanIsBlank(d); }
    TextScan(braces, [], d.buf, d.bufStart, ctx, |indent|, name);
    var e := InText(braces, [], d.buf + name, |indent|);
    NotEmpty(name);
    var i := |indent| + |name|;
    ParenOpens(e, ctx, i, braces, []);
    ScanOne(e, ctx, i, '(');
    assert "(" == ['('];
    ScanConcat(d, ctx, |indent|, name, "(");
    ScanConcat(c, ctx, 0, indent, name + "(");
    ScanAll(c, ctx, text);
    ArgScanNothing();
    var padding := [Part(name, CallFlag, "", |braces|, ctx.At(|indent|))];
    ReadSoFar(Scan(e, ctx, i, "(").core, "", padding, ctx.At(i), braces, ctx);
  }

  lemma CleanIsBlank(c: Core)
    requires Clean(c)
    ensures TrimSpace(c.buf) == ""
  {
  }

  /** The line that closes it. */
  lemma CallCloses(indent: string, name: string, args: string, braces: seq<Position>, start: Position,
                   origin: Position, lineNum: int)
    requires AllBlank(indent) && ArgsWord(args)
    ensures Tokenized(InCall(name, args, braces, start, origin), lineNum, indent + ")") ==
            Line(Rest(braces), [Part(name, CallFlag, args, |braces|, start)])
  {
    hide Scan, ScanTo, ArgScan, HasSpacePrefix, StepChar, AllBlank;
    ParenOnly(indent);
    var p := InCall(name, args, braces, start, origin);
    assert "\""[0] == '"' && "`"[0] == '`' && ")"[0] == ')';
    assert !NeedsAutoComma(args, indent + ")");
    hide TrimSpace, TrimLeft, IsValidContinuation, NeedsAutoComma;
    var ctx := Context(lineNum, HasSpacePrefix(indent + ")"), ")");
    var c := Core(p, [], "", false, false, 0);
    ParenCloses(c, ctx, 0, args, p.padding, origin, braces, []);
    ScanAll(c, ctx, ")");
    ScanOne(c, ctx, 0, ')');
    assert ")" == [')'];
    var d := StepChar(c, ctx, 0, ')').core;
    TextIsBetween(braces, d.parts, d.bufStart, ctx);
  }

  lemma ParenOnly(indent: string)
    requires AllBlank(indent)
    ensures TrimSpace(indent + ")") == ")" && TrimLeft(indent + ")", IsBlank) == ")"
  {
    BlanksAreSpaces(indent);
    TrimLeftBlanks(indent, ")");
    assert !IsSpace(')');
    TrimLeftSpaces(indent, ")");
    assert TrimRight(")", IsSpace) == ")";
  }

  /** No line of the call is a comment. */
  lemma NoComment(s: string, v: string)
    requires AllBlank(s) && v != "" && !IsSpace(v[0]) && v[0] != '#'
    ensures !CommentLine(false, s + v) && !SkipsAfter(false, s + v)
  {
    hide TrimSpace, IsSpace;
    BlanksAreSpaces(s);
    TrimKeepsFirst(s, v);
    assert "#"[0] == '#' && "#*"[0] == '#';
  }

  /** The rest of the call, from its `k`-th argument on. */
  lemma {:induction false} ArgsFollow(name: string, args: seq<ArgLine>, k: nat, close: string, braces: seq<Position>,
                                      start: Position, origin: Position, lineNum: int, rest: seq<string>)
    requires ArgLinesOk(args) && k <= |args| && AllBlank(close)
    ensures TokenizedLines(InCall(name, Listed(args[..k]), braces, start, origin), false, lineNum,
                           ArgTexts(args[k..]) + [close + ")"] + rest) ==
            match TokenizedLines(Rest(braces), false, lineNum + |args| - k + 1, rest)
            case Refused(e) => Refused(e)
            case Line(q, parts) => Line(q, [Part(name, CallFlag, Listed(args), |braces|, start)] + parts)
    decreases |args| - k
  {
    hide Tokenized, CommentLine, SkipsAfter, Listed, ArgLine.Text, Closing, ArgScan, QuotedWord, InCall, Rest;
    var texts := ArgTexts(args[k..]) + [close + ")"] + rest;
    if k == |args| {
      assert args[..k] == args;
      ListedOk(args);
      NoComment(close, ")") by { assert !IsSpace(')'); }
      CallCloses(close, name, Listed(args), braces, start, origin, lineNum);
      assert texts[1..] == rest;
    } else {
      assert texts[0] == args[k].Text() && texts[1..] == ArgTexts(args[k + 1..]) + [close + ")"] + rest;
      NextArg(name, args, k, braces, start, origin, lineNum);
      ArgIsNoComment(args[k]);
      ArgsFollow(name, args, k + 1, close, braces, start, origin, lineNum + 1, rest);
    }
  }

  lemma ArgIsNoComment(arg: ArgLine)
    requires AllBlank(arg.indent)
    ensures !CommentLine(false, arg.Text()) && !SkipsAfter(false, arg.Text())
  {
    QuoteIsNoSpace();
    NoComment(arg.indent, arg.Shown());
  }

  /** A call over several lines, with a quoted argument on each, is one part, with a comma
      between the arguments whether written or not; what follows is read as if nothing had been. */
  lemma SpreadCall(indent: string, name: string, args: seq<ArgLine>, close: string, rest: seq<string>,
                   braces: seq<Position>, lineNum: int)
    requires AllBlank(indent) && Word(name) && name[0] != '#' && ArgLinesOk(args) && AllBlank(close)
    ensures var first := indent + (name + "(");
            var start := Context(lineNum, HasSpacePrefix(first), first).At(|indent|);
            TokenizedLines(Rest(braces), false, lineNum, [first] + ArgTexts(args) + [close + ")"] + rest) ==
            match TokenizedLines(Rest(braces), false, lineNum + |args| + 2, rest)
            case Refused(e) => Refused(e)
            case Line(q, parts) => Line(q, [Part(name, CallFlag, Listed(args), |braces|, start)] + parts)
  {
    hide Tokenized, CommentLine, SkipsAfter, Closing, QuotedWord, HasSpacePrefix, TrimSpace;
    var first := indent + (name + "(");
    var ctx := Context(lineNum, HasSpacePrefix(first), first);
    TrimsTo("", name);
    NoComment(indent, name + "(");
    CallOpens(indent, name, braces, lineNum);
    var texts := [first] + ArgTexts(args) + [close + ")"] + rest;
    assert args[0..] == args && args[..0] == [];
    assert texts[1..] == ArgTexts(args[0..]) + [close + ")"] + rest;
    ArgsFollow(name, args, 0, close, braces, ctx.At(|indent|), ctx.At(|indent| + |name|), lineNum + 1, rest);
  }

  // ---------------------------------------------------------------- a raw text over several lines

  /** The lines with line ends between them. */
  function Lined(lines: seq<string>): string {
    if lines == [] then ""
    else
      var last := |lines| - 1;
      Lined(lines[..last]) + (if last > 0 then "\n" else "") + lines[last]
  }

  /** The raw text is open, with `text` so far. */
  function InRawText(text: string, braces: seq<Position>, at: Position): Pending {
    Rest(braces).(rawPart := Some(Part("", QuotedFlag, "", |braces|, at)), raw := "`" + text)
  }

  /** The line that opens it. */
  lemma RawOpensLine(indent: string, text: string, braces: seq<Position>, lineNum: int)
    requires AllBlank(indent) && '`' !in text
    ensures var line := indent + ("`" + text);
            var ctx := Context(lineNum, HasSpacePrefix(line), line);
            Tokenized(Rest(braces), lineNum, line) == Line(InRawText(text, braces, ctx.At(|indent|)), [])
  {
    hide Scan, ScanTo, TrimSpace, HasSpacePrefix, IsSpace, StepChar, AllBlank, Clean;
    var line := indent + ("`" + text);
    var ctx := Context(lineNum, HasSpacePrefix(line), line);
    var c := InText(braces, [], "", 0);
    TextIsBetween(braces, [], 0, ctx);
    BlanksAreSpaces(indent);
    GapReads(c, ctx, 0, indent, braces, []);
    var d, i := Scan(c, ctx, 0, indent).core, |indent|;
    var part := Part("", QuotedFlag, "", |braces|, ctx.At(i));
    var start := RawOpens(d, ctx, i, braces, []);
    ScanOne(d, ctx, i, '`');
    assert "`" == ['`'];
    RawGoesOn(braces, [], part, "", start, ctx, i + 1, text);
    assert "" + text == text;
    ScanConcat(d, ctx, i, "`", text);
    ScanConcat(c, ctx, 0, indent, "`" + text);
    ScanAll(c, ctx, line);
    BlankIff("");
  }

  /** A line within it, and the line that closes it. */
  lemma RawLine(before: string, text: string, braces: seq<Position>, at: Position, lineNum: int)
    requires '`' !in text
    ensures Tokenized(InRawText(before, braces, at), lineNum, text) ==
            Line(InRawText(before + "\n" + text, braces, at), [])
    ensures Tokenized(InRawText(before, braces, at), lineNum, text + "`") ==
            Line(Rest(braces), [Part(before + "\n" + text, QuotedFlag, "", |braces|, at)])
  {
    hide Scan, ScanTo, TrimSpace, HasSpacePrefix, StepChar, NeedsAutoComma;
    var part := Part("", QuotedFlag, "", |braces|, at);
    assert ("`" + before) + "\n" == "`" + (before + "\n");
    var c := InRaw(braces, [], part, before + "\n", 0);
    var d := InRaw(braces, [], part, before + "\n" + text, 0);
    forall line | line == text || line == text + "`"
      ensures Core(BeginLine(InRawText(before, braces, at), line), [], "", false, false, 0) == c
      ensures LineText(InRawText(before, braces, at), line) == line
    {
    }
    var ctx := Context(lineNum, HasSpacePrefix(text), text);
    RawGoesOn(braces, [], part, before + "\n", 0, ctx, 0, text);
    ScanAll(c, ctx, text);
    BlankIff("");
    var ctx2 := Context(lineNum, HasSpacePrefix(text + "`"), text + "`");
    RawGoesOn(braces, [], part, before + "\n", 0, ctx2, 0, text);
    ScanConcat(c, ctx2, 0, text, "`");
    ScanOne(d, ctx2, |text|, '`');
    assert "`" == ['`'];
    RawCloses(braces, [], part, before + "\n" + text, 0, ctx2, |text|);
    ScanAll(c, ctx2, text + "`");
  }

  /** The lines as they are written, from line `k` of the raw text on; the last ends it. */
  function RawTexts(lines: seq<string>, k: nat): seq<string>
    requires k < |lines|
  {
    lines[k..|lines| - 1] + [lines[|lines| - 1] + "`"]
  }

  /** No line but the first can be taken for a comment, and none ends the text. */
  predicate RawLinesOk(lines: seq<string>) {
    && (forall k :: 0 <= k < |lines| ==> '`' !in lines[k])
    && (forall k :: 0 < k < |lines| ==> !("#" <= TrimSpace(lines[k])))
  }

  lemma LinedNext(lines: seq<string>, k: nat)
    requires 0 < k < |lines|
    ensures Lined(lines[..k + 1]) == Lined(lines[..k]) + "\n" + lines[k]
  {
    assert lines[..k + 1][..k] == lines[..k];
  }

  lemma {:induction false} RawFollows(lines: seq<string>, k: nat, braces: seq<Position>, at: Position, lineNum: int,
                                      rest: seq<string>)
    requires RawLinesOk(lines) && 0 < k < |lines|
    requires !("#" <= TrimSpace(lines[|lines| - 1] + "`"))
    ensures TokenizedLines(InRawText(Lined(lines[..k]), braces, at), false, lineNum, RawTexts(lines, k) + rest) ==
            match TokenizedLines(Rest(braces), false, lineNum + |lines| - k, rest)
            case Refused(e) => Refused(e)
            case Line(q, parts) => Line(q, [Part(Lined(lines), QuotedFlag, "", |braces|, at)] + parts)
    decreases |lines| - k
  {
    hide Tokenized, Lined, Closing, TrimSpace, InRawText, Rest;
    var texts := RawTexts(lines, k) + rest;
    RawLine(Lined(lines[..k]), lines[k], braces, at, lineNum);
    LinedNext(lines, k);
    StarIsComment(texts[0]);
    if k == |lines| - 1 {
      assert lines[..k + 1] == lines;
      assert texts == [lines[k] + "`"] + rest && texts[1..] == rest;
    } else {
      assert texts[0] == lines[k] && texts[1..] == RawTexts(lines, k + 1) + rest;
      RawFollows(lines, k + 1, braces, at, lineNum + 1, rest);
    }
  }

  /** A raw text over several lines is one part, with the line ends in it. */
  lemma SpreadRaw(indent: string, lines: seq<string>, rest: seq<string>, braces: seq<Position>, lineNum: int)
    requires AllBlank(indent) && |lines| > 1 && RawLinesOk(lines)
    requires !("#" <= TrimSpace(lines[|lines| - 1] + "`"))
    ensures var first := indent + ("`" + lines[0]);
            var start := Context(lineNum, HasSpacePrefix(first), first).At(|indent|);
            TokenizedLines(Rest(braces), false, lineNum, [first] + RawTexts(lines, 1) + rest) ==
            match TokenizedLines(Rest(braces), false, lineNum + |lines|, rest)
            case Refused(e) => Refused(e)
            case Line(q, parts) => Line(q, [Part(Lined(lines), QuotedFlag, "", |braces|, start)] + parts)
  {
    hide Tokenized, CommentLine, SkipsAfter, Closing, HasSpacePrefix, TrimSpace, RawTexts, Rest, InRawText;
    var first := indent + ("`" + lines[0]);
    var ctx := Context(lineNum, HasSpacePrefix(first), first);
    NoComment(indent, "`" + lines[0]) by { assert !IsSpace('`'); }
    RawOpensLine(indent, lines[0], braces, lineNum);
    LinedFirst(lines);
    var texts := [first] + RawTexts(lines, 1) + rest;
    assert texts[1..] == RawTexts(lines, 1) + rest;
    RawFollows(lines, 1, braces, ctx.At(|indent|), lineNum + 1, rest);
  }

  /** A line of the raw text that starts with '#' leaves no trace, not even its line end: it is
      taken for a comment before the tokenizer sees it. */
  lemma RawLosesComment(a: string, b: string, c: string, lineNum: int)
    requires '`' !in a && '`' !in c && !("*" <= b) && !("#" <= TrimSpace(c + "`"))
    ensures var first := "" + ("`" + a);
            var start := Context(lineNum, HasSpacePrefix(first), first).At(0);
            TokenizedLines(NOTHING, false, lineNum, [first, "#" + b, c + "`"]) ==
            Line(NOTHING, [Part(a + "\n" + c, QuotedFlag, "", 0, start)])
  {
    hide Tokenized, HasSpacePrefix, TrimSpace;
    var first := "" + ("`" + a);
    NoComment("", "`" + a) by { assert !IsSpace('`'); }
    RawOpensLine("", a, [], lineNum);
    HashIsComment(b);
    var at := Context(lineNum, HasSpacePrefix(first), first).At(0);
    RawLine(a, c, [], at, lineNum + 2);
    StarIsComment(c + "`");
    var p, part := InRawText(a, [], at), Part(a + "\n" + c, QuotedFlag, "", 0, at);
    assert NOTHING == Rest([]) && "" + ("`" + a) == "`" + a;
    assert [c + "`"][1..] == [] && ["#" + b, c + "`"][1..] == [c + "`"];
    assert [first, "#" + b, c + "`"][1..] == ["#" + b, c + "`"];
    assert TokenizedLines(NOTHING, false, lineNum + 3, []) == Line(NOTHING, []);
    assert TokenizedLines(p, false, lineNum + 2, [c + "`"]) == Line(NOTHING, [part]);
    assert TokenizedLines(p, false, lineNum + 1, ["#" + b, c + "`"]) == Line(NOTHING, [part]);
  }

  lemma HashIsComment(b: string)
    requires !("*" <= b)
    ensures CommentLine(false, "#" + b) && !SkipsAfter(false, "#" + b)
  {
    var line := "#" + b;
    TrimLeftSpaces("", line) by { assert !IsSpace('#'); }
    assert "" + line == line;
    TrimRightPart(line, IsSpace);
    KeepsRight(line, 0);
    assert TrimSpace(line)[0] == '#';
    assert "#"[0] == '#' && "#*"[1] == '*' && "*"[0] == '*';
    assert |line| > 1 ==> line[1] == b[0];
    hide TrimSpace;
  }

  lemma LinedFirst(lines: seq<string>)
    requires lines != []
    ensures Lined(lines[..1]) == lines[0]
  {
    assert lines[..1][..0] == [];
  }

  // ---------------------------------------------------------------- a quoted text behind a text

  /** A quoted text right behind a text, with no ';' between, is a part of its own, but it is
      given the place at which the text starts. */
  lemma QuoteBehindText(v: string, q: string, braces: seq<Position>, lineNum: int)
    requires Word(v) && QuotedWord(q)
    ensures var text := v + ("\"" + (q + "\""));
            var start := Context(lineNum, HasSpacePrefix(text), text).At(0);
            Tokenized(Rest(braces), lineNum, text) ==
            Line(Rest(braces), [Part(v, TextFlag, "", |braces|, start), Part(q, QuotedFlag, "", |braces|, start)])
  {
    hide Scan, ScanTo, HasSpacePrefix, TrimSpace, QuoteScan, StepChar, Word;
    var text := v + ("\"" + (q + "\""));
    var ctx := Context(lineNum, HasSpacePrefix(text), text);
    var c := InText(braces, [], "", 0);
    var out := [Part(v, TextFlag, "", |braces|, ctx.At(0))];
    BlankIff("");
    TextScan(braces, [], "", 0, ctx, 0, v);
    assert "" + v == v && "" + q == q && "\"" == ['"'];
    QuoteFlushes(v, braces, ctx, |v|);
    ScanOne(InText(braces, [], v, 0), ctx, |v|, '"');
    QuoteScanNothing();
    QuoteGoesOn(braces, out, "", false, 0, ctx, |v| + 1, q);
    var i := |v| + 1 + |q|;
    QuoteCloses(braces, out, q, 0, ctx, i);
    ScanOne(InQuotes(braces, out, q, false, 0), ctx, i, '"');
    ScanConcat(InQuotes(braces, out, "", false, 0), ctx, |v| + 1, q, "\"");
    ScanConcat(InText(braces, [], v, 0), ctx, |v|, "\"", q + "\"");
    ScanConcat(c, ctx, 0, v, "\"" + (q + "\""));
    ScanAll(c, ctx, text);
    TextIsBetween(braces, out + [Part(q, QuotedFlag, "", |braces|, ctx.At(0))], 0, ctx);
  }

  lemma QuoteFlushes(v: string, braces: seq<Position>, ctx: Context, i: nat)
    requires Word(v)
    ensures StepChar(InText(braces, [], v, 0), ctx, i, '"') ==
            Went(InQuotes(braces, [Part(v, TextFlag, "", |braces|, ctx.At(0))], "", false, 0))
  {
    hide TrimSpace;
    assert "\"" + "" == "\"";
  }

  // ---------------------------------------------------------------- what is refused

  /** A line that begins with `s` is refused as soon as `s` is. */
  lemma RefusedSo(braces: seq<Position>, s: string, more: string, lineNum: int, error: TokenError)
    requires var ctx := Context(lineNum, HasSpacePrefix(s + more), s + more);
             Scan(InText(braces, [], "", 0), ctx, 0, s) == Failed(error)
    ensures Tokenized(Rest(braces), lineNum, s + more) == Refused(error)
  {
    hide Scan, ScanTo, HasSpacePrefix;
    var text := s + more;
    var ctx := Context(lineNum, HasSpacePrefix(text), text);
    ScanConcat(InText(braces, [], "", 0), ctx, 0, s, more);
    ScanAll(InText(braces, [], "", 0), ctx, text);
  }

  /** After the pieces of a line, the scan is between pieces. */
  lemma PiecesScanned(line: seq<Spaced>, ctx: Context, braces: seq<Position>)
    requires Readable(line, false, |braces|)
    ensures var d := Scan(InText(braces, [], "", 0), ctx, 0, Written(line));
            d.Went? && Between(d.core, ctx, PartsOf(line, ctx, 0, braces).1, PartsOf(line, ctx, 0, braces).0)
  {
    hide Scan, Clean, Readable, Written, PartsOf, Between;
    TextIsBetween(braces, [], 0, ctx);
    PiecesRead(InText(braces, [], "", 0), ctx, 0, line, false, braces, []);
    assert [] + PartsOf(line, ctx, 0, braces).0 == PartsOf(line, ctx, 0, braces).0;
  }

  /** A parenthesis that closes nothing, behind readable pieces, refuses the line. */
  lemma ParenRefused(line: seq<Spaced>, more: string, braces: seq<Position>, lineNum: int)
    requires Readable(line, false, |braces|)
    ensures var text := Written(line) + ")" + more;
            Tokenized(Rest(braces), lineNum, text) == Refused(UnexpectedParen(text))
  {
    hide Scan, Readable, Written, PartsOf, HasSpacePrefix, TrimSpace;
    var text := Written(line) + ")" + more;
    var ctx := Context(lineNum, HasSpacePrefix(text), text);
    PiecesScanned(line, ctx, braces);
    var c := InText(braces, [], "", 0);
    var d := Scan(c, ctx, 0, Written(line)).core;
    ScanConcat(c, ctx, 0, Written(line), ")");
    ScanOne(d, ctx, |Written(line)|, ')');
    assert ")" == [')'];
    RefusedSo(braces, Written(line) + ")", more, lineNum, UnexpectedParen(text));
  }

  /** So does a brace that closes nothing. */
  lemma BraceRefused(line: seq<Spaced>, more: string, braces: seq<Position>, lineNum: int)
    requires Readable(line, false, |braces|)
    requires var text := Written(line) + "}" + more;
             PartsOf(line, Context(lineNum, HasSpacePrefix(text), text), 0, braces).1 == []
    ensures var text := Written(line) + "}" + more;
            Tokenized(Rest(braces), lineNum, text) == Refused(UnexpectedBrace(text))
  {
    hide Scan, Readable, Written, PartsOf, HasSpacePrefix, TrimSpace;
    var text := Written(line) + "}" + more;
    var ctx := Context(lineNum, HasSpacePrefix(text), text);
    PiecesScanned(line, ctx, braces);
    var c := InText(braces, [], "", 0);
    var d := Scan(c, ctx, 0, Written(line)).core;
    ScanConcat(c, ctx, 0, Written(line), "}");
    ScanOne(d, ctx, |Written(line)|, '}');
    assert "}" == ['}'];
    RefusedSo(braces, Written(line) + "}", more, lineNum, UnexpectedBrace(text));
  }

  /** So does a quote without its end. */
  lemma QuoteRefused(line: seq<Spaced>, q: string, braces: seq<Position>, lineNum: int)
    requires Readable(line, false, |braces|) && QuoteScan(q).Some?
    ensures var text := Written(line) + (";\"" + q);
            Tokenized(Rest(braces), lineNum, text) == Refused(UnterminatedQuote(text))
  {
    hide Scan, Readable, Written, PartsOf, HasSpacePrefix, TrimSpace, Between, QuoteScan, ScanTo, StepChar, Clean;
    var text := Written(line) + (";\"" + q);
    var ctx := Context(lineNum, HasSpacePrefix(text), text);
    var c := InText(braces, [], "", 0);
    var open, out := PartsOf(line, ctx, 0, braces).1, PartsOf(line, ctx, 0, braces).0;
    PiecesScanned(line, ctx, braces);
    var d, i := Scan(c, ctx, 0, Written(line)).core, |Written(line)|;
    assert GapOk(";") && ';' in ";";
    GapReads(d, ctx, i, ";", open, out);
    var e := Scan(d, ctx, i, ";").core;
    QuoteOpens(e, ctx, i + 1, open, out);
    ScanOne(e, ctx, i + 1, '"');
    assert ";" + ("\"" + q) == ";\"" + q && "\"" == ['"'];
    QuoteScanNothing();
    assert "" + q == q;
    QuoteGoesOn(open, out, "", false, i + 1, ctx, i + 2, q);
    ScanConcat(e, ctx, i + 1, "\"", q);
    ScanConcat(d, ctx, i, ";", "\"" + q);
    ScanConcat(c, ctx, 0, Written(line), ";\"" + q);
    ScanAll(c, ctx, text);
  }

  /** So does a brace between parentheses, outside quotes. */
  lemma BraceInParensRefused(line: seq<Spaced>, args: string, more: string, braces: seq<Position>, lineNum: int)
    requires Readable(line, false, |braces|) && ArgScan(args).Some? && !ArgScan(args).value.inQuote
    ensures var text := Written(line) + (";(" + (args + "{")) + more;
            Tokenized(Rest(braces), lineNum, text) == Refused(BraceInParens(text))
  {
    hide Scan, Readable, Written, PartsOf, HasSpacePrefix, TrimSpace, Between, ArgScan, ScanTo, StepChar, Clean;
    hide Reading;
    var text := Written(line) + (";(" + (args + "{")) + more;
    var ctx := Context(lineNum, HasSpacePrefix(text), text);
    var c := InText(braces, [], "", 0);
    var open, out := PartsOf(line, ctx, 0, braces).1, PartsOf(line, ctx, 0, braces).0;
    PiecesScanned(line, ctx, braces);
    var d, i := Scan(c, ctx, 0, Written(line)).core, |Written(line)|;
    assert GapOk(";") && ';' in ";";
    GapReads(d, ctx, i, ";", open, out);
    var e := Scan(d, ctx, i, ";").core;
    CleanIsText(e, ctx, open, out);
    ParenOpens(e, ctx, i + 1, open, out);
    CleanIsBlank(e);
    ScanOne(e, ctx, i + 1, '(');
    var f := StepChar(e, ctx, i + 1, '(').core;
    assert ";" + ("(" + (args + "{")) == ";(" + (args + "{") && "(" == ['('] && "{" == ['{'];
    assert "" + args == args;
    ArgsGoOn(f, ctx, i + 2, "", args, [], ctx.At(i + 1), open, out);
    var g := Scan(f, ctx, i + 2, args).core;
    BraceFails(g, ctx, i + 2 + |args|, args, [], ctx.At(i + 1), open, out);
    ScanOne(g, ctx, i + 2 + |args|, '{');
    ScanConcat(f, ctx, i + 2, args, "{");
    ScanConcat(e, ctx, i + 1, "(", args + "{");
    ScanConcat(d, ctx, i, ";", "(" + (args + "{"));
    ScanConcat(c, ctx, 0, Written(line), ";(" + (args + "{"));
    RefusedSo(braces, Written(line) + (";(" + (args + "{")), more, lineNum, BraceInParens(text));
  }

  lemma BraceFails(c: Core, ctx: Context, i: nat, args: string, padding: seq<Part>, origin: Position,
                   braces: seq<Position>, out: seq<Part>)
    requires ArgScan(args).Some? && !ArgScan(args).value.inQuote
    requires Reading(c, args, padding, origin, braces, out)
    ensures StepChar(c, ctx, i, '{') == Failed(BraceInParens(ctx.line))
  {
    hide Flushed, TrimSpace;
    ReadingUnescaped(args);
  }

  lemma {:induction false} ReadingUnescaped(args: string)
    requires ArgScan(args).Some?
    ensures ArgScan(args).value.escaped ==> ArgScan(args).value.inQuote
    decreases |args|
  {
    if args != "" {
      ReadingUnescaped(args[..|args| - 1]);
    }
  }

  /** An open call goes on only with a blank line, a quoted text, a raw one or the parenthesis. */
  lemma CallRefused(p: Pending, spaces: string, v: string, lineNum: int)
    requires p.parens != [] && AllSpaces(spaces) && v != "" && !IsSpace(v[0]) && v[0] !in {'"', '`', ')'}
    ensures Tokenized(p, lineNum, spaces + v) == Refused(UnterminatedParens(p.parens[|p.parens| - 1]))
  {
    hide TrimSpace, IsSpace;
    TrimKeepsFirst(spaces, v);
    assert "\""[0] == '"' && "`"[0] == '`' && ")"[0] == ')';
  }

  /** A text that ends within a call is refused at its parenthesis, and one that ends within a
      raw text at its backquote. */
  lemma LeftOpen(indent: string, name: string, text: string, braces: seq<Position>, lineNum: int)
    requires AllBlank(indent) && Word(name) && name[0] != '#' && '`' !in text
    ensures var line := indent + (name + "(");
            var at := Context(lineNum, HasSpacePrefix(line), line).At(|indent| + |name|);
            TokenizedLines(Rest(braces), false, lineNum, [line]) == Refused(UnterminatedParens(at))
    ensures var line := indent + ("`" + text);
            var at := Context(lineNum, HasSpacePrefix(line), line).At(|indent|);
            TokenizedLines(Rest(braces), false, lineNum, [line]) == Refused(UnterminatedRaw(at))
  {
    hide Tokenized, CommentLine, SkipsAfter, HasSpacePrefix, TrimSpace;
    TrimsTo("", name);
    NoComment(indent, name + "(");
    CallOpens(indent, name, braces, lineNum);
    NoComment(indent, "`" + text) by { assert !IsSpace('`'); }
    RawOpensLine(indent, text, braces, lineNum);
  }
}
