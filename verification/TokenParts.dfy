/**
 What the tokenizer's parts are like: every one is well formed, and the braces of a text that
 is accepted are balanced, each part carrying its nesting.
 */
module TokenParts {
  import opened Common
  import opened TokenSteps

  /** A character without a meaning of its own outside quotes. */
  predicate Plain(c: char) {
    c !in {'"', '`', '(', ')', '{', '}', ';'}
  }

  predicate AllPlain(s: string) {
    forall i :: 0 <= i < |s| ==> Plain(s[i])
  }

  /** The name of a call: plain, and without spaces around it. */
  predicate Word(v: string) {
    v != "" && AllPlain(v) && TrimSpace(v) == v
  }

  datatype ArgState = ArgState(depth: nat, inQuote: bool, escaped: bool)

  /** One character inside parentheses; the one that closes them is not inside. */
  function ArgStep(s: ArgState, c: char): Option<ArgState> {
    if s.inQuote && s.escaped then Some(s.(escaped := false))
    else if c == '\\' then Some(s.(escaped := s.escaped || s.inQuote))
    else if c == '"' then Some(s.(inQuote := !s.inQuote))
    else if s.inQuote then Some(s)
    else if c == '(' then Some(s.(depth := s.depth + 1))
    else if c == ')' then if s.depth > 1 then Some(s.(depth := s.depth - 1)) else None
    else if c == '{' || c == '}' then None
    else Some(s)
  }

  const INSIDE := ArgState(1, false, false)

  function ArgScan(a: string): Option<ArgState> {
    if a == "" then Some(INSIDE)
    else
      match ArgScan(a[..|a| - 1])
      case None => None
      case Some(s) => ArgStep(s, a[|a| - 1])
  }

  /** The text between a '(' and its ')'. */
  predicate ArgsWord(a: string) {
    ArgScan(a) == Some(INSIDE)
  }

  lemma ArgScanNext(a: string, c: char)
    ensures ArgScan(a + [c]) == match ArgScan(a) { case None => None case Some(s) => ArgStep(s, c) }
  {
    assert (a + [c])[..|a|] == a;
  }

  /** Whether the next character between quotes is escaped, if the quotes are not closed. */
  function QuoteStep(escaped: bool, c: char): Option<bool> {
    if escaped then Some(false) else if c == '"' then None else Some(c == '\\')
  }

  function QuoteScan(q: string): Option<bool> {
    if q == "" then Some(false)
    else
      match QuoteScan(q[..|q| - 1])
      case None => None
      case Some(escaped) => QuoteStep(escaped, q[|q| - 1])
  }

  /** The text between two quotes. */
  predicate QuotedWord(q: string) {
    QuoteScan(q) == Some(false)
  }

  lemma QuoteScanNext(q: string, c: char)
    ensures QuoteScan(q + [c]) ==
      match QuoteScan(q) { case None => None case Some(escaped) => QuoteStep(escaped, c) }
  {
    assert (q + [c])[..|q|] == q;
  }

  // ---------------------------------------------------------------- what every emitted part is

  predicate PartOk(p: Part) {
    match p.flag
    case CallFlag => Word(p.value) && ArgsWord(p.args)
    case ArgsFlag => p.value == "" && ArgsWord(p.args)
    case TextFlag => Word(p.value) && p.args == ""
    case QuotedFlag => (QuotedWord(p.value) || '`' !in p.value) && p.args == ""
    case BracketFlag => p.value in {"{", "}"} && p.args == ""
  }

  predicate PaddingOk(p: Part) {
    p.flag == CallFlag && Word(p.value)
  }

  /** A quoted text as far as it is read, with the quote that opens it. */
  predicate QuoteOkSoFar(buf: string, escaped: bool) {
    buf != "" && buf[0] == '"' && QuoteScan(buf[1..]) == Some(escaped)
  }

  /** A raw text as far as it is read, with the backquote that opens it. */
  predicate RawOkSoFar(part: Part, raw: string) {
    && part.flag == QuotedFlag && part.value == "" && part.args == ""
    && raw != "" && raw[0] == '`' && '`' !in raw[1..]
  }

  /** Outside quotes and parentheses the buffer is plain; inside parentheses the arguments so
      far have been scanned to the depth, and the quoting, that the tokenizer is at. */
  ghost predicate CoreOk(c: Core) {
    && (forall i :: 0 <= i < |c.parts| ==> PartOk(c.parts[i]))
    && (c.escaped ==> c.inQuote)
    && (c.p.rawPart.Some? ==> RawOkSoFar(c.p.rawPart.value, c.p.raw) && c.p.parens == [] && !c.inQuote)
    && (c.p.rawPart.None? ==> c.p.raw == "")
    && if c.p.parens == [] then
         && c.p.args == "" && c.p.padding == []
         && (if c.inQuote then QuoteOkSoFar(c.buf, c.escaped) else AllPlain(c.buf))
       else
         && c.buf == ""
         && ArgScan(c.p.args) == Some(ArgState(|c.p.parens|, c.inQuote, c.escaped))
         && |c.p.padding| <= 1 && (c.p.padding != [] ==> PaddingOk(c.p.padding[0]))
  }

  lemma {:induction false} TrimLeftPart(s: string, drop: char -> bool)
    ensures var t := TrimLeft(s, drop); |t| <= |s| && t == s[|s| - |t|..] && (t != "" ==> !drop(t[0]))
    decreases |s|
  {
    if s != "" && drop(s[0]) {
      TrimLeftPart(s[1..], drop);
    }
  }

  lemma {:induction false} TrimRightPart(s: string, drop: char -> bool)
    ensures var t := TrimRight(s, drop); |t| <= |s| && t == s[..|t|] && (t != "" ==> !drop(t[|t| - 1]))
    decreases |s|
  {
    if s != "" && drop(s[|s| - 1]) {
      TrimRightPart(s[..|s| - 1], drop);
    }
  }

  /** What is left of a plain text without the spaces around it, if anything, is a word. */
  lemma TrimmedWord(s: string)
    requires AllPlain(s)
    ensures TrimSpace(s) != "" ==> Word(TrimSpace(s))
  {
    hide IsSpace;
    var l := TrimLeft(s, IsSpace);
    var t := TrimSpace(s);
    TrimLeftPart(s, IsSpace);
    TrimRightPart(l, IsSpace);
    if t != "" {
      assert t[0] == l[0];
      assert TrimLeft(t, IsSpace) == t && TrimRight(t, IsSpace) == t;
    }
  }

  lemma FlushedOk(c: Core, ctx: Context)
    requires CoreOk(c) && c.p.parens == [] && !c.inQuote
    ensures CoreOk(Flushed(c, ctx)) && Flushed(c, ctx).p == c.p && Flushed(c, ctx).buf == ""
    ensures !Flushed(c, ctx).inQuote && !Flushed(c, ctx).escaped
  {
    hide TrimSpace, PartOk, ArgScan, Word;
    TrimmedWord(c.buf);
    var value := TrimSpace(c.buf);
    if value != "" {
      TextPartOk(Part(value, TextFlag, "", |c.p.braces|, ctx.At(c.bufStart)));
    }
  }

  lemma TextPartOk(p: Part)
    requires p.flag == TextFlag && Word(p.value) && p.args == ""
    ensures PartOk(p)
  {
  }

  lemma QuotedPartOk(p: Part)
    requires p.flag == QuotedFlag && (QuotedWord(p.value) || '`' !in p.value) && p.args == ""
    ensures PartOk(p)
  {
  }

  lemma WriteOk(c: Core, r: char)
    requires CoreOk(c) && c.p.rawPart.None?
    requires if c.p.parens != []
             then ArgStep(ArgState(|c.p.parens|, c.inQuote, c.escaped), r)
               == Some(ArgState(|c.p.parens|, c.inQuote, c.escaped))
             else if c.inQuote then QuoteStep(c.escaped, r) == Some(c.escaped)
             else Plain(r)
    ensures CoreOk(Write(c, r))
  {
    hide CoreOk;
    Quoting(c);
    WriteQuoted(c, r, c.inQuote, c.escaped);
    assert Write(c, r) == Write(c, r).(inQuote := c.inQuote, escaped := c.escaped);
  }

  /** A character of the arguments changes the quoting only. */
  lemma WriteQuoted(c: Core, r: char, inQuote: bool, escaped: bool)
    requires CoreOk(c) && c.p.rawPart.None? && (escaped ==> inQuote)
    requires if c.p.parens != []
             then ArgStep(ArgState(|c.p.parens|, c.inQuote, c.escaped), r)
               == Some(ArgState(|c.p.parens|, inQuote, escaped))
             else c.inQuote == inQuote && if inQuote then QuoteStep(c.escaped, r) == Some(escaped) else Plain(r)
    ensures CoreOk(Write(c, r).(inQuote := inQuote, escaped := escaped))
  {
    hide PartOk, ArgScan, ArgStep, PaddingOk, QuoteScan, QuoteStep, RawOkSoFar;
    ArgScanNext(c.p.args, r);
    if c.p.parens == [] && inQuote {
      QuoteScanNext(c.buf[1..], r);
      assert (c.buf + [r])[1..] == c.buf[1..] + [r];
    }
  }

  lemma QuoteOk(c: Core, ctx: Context)
    requires CoreOk(c) && c.p.rawPart.None? && !c.escaped
    ensures CoreOk(StepQuote(c, ctx))
  {
    hide PartOk, ArgScan, PaddingOk, Flushed, TrimSpace;
    if c.p.parens != [] {
      WriteQuoted(c, '"', !c.inQuote, false);
    } else if c.inQuote {
      assert Inner(c.buf + ['"']) == c.buf[1..];
      QuotedPartOk(Part(Inner(c.buf + ['"']), QuotedFlag, "", |c.p.braces|, ctx.At(c.bufStart)));
    } else {
      FlushedOk(c, ctx);
    }
  }

  lemma BackquoteOk(c: Core, ctx: Context, i: nat)
    requires CoreOk(c) && c.p.rawPart.None? && !c.escaped
    ensures CoreOk(StepBackquote(c, ctx, i))
  {
    hide PartOk, ArgScan, PaddingOk, Flushed, TrimSpace;
    if c.inQuote || c.p.parens != [] {
      WriteOk(c, '`');
    } else {
      FlushedOk(c, ctx);
    }
  }

  lemma OpenOk(c: Core, ctx: Context, i: nat)
    requires CoreOk(c) && c.p.rawPart.None? && !c.escaped
    ensures CoreOk(StepOpen(c, ctx, i))
  {
    hide PartOk, ArgScan, TrimSpace, Word, AllPlain;
    if c.inQuote {
      WriteOk(c, '(');
    } else if c.p.parens != [] {
      ArgScanNext(c.p.args, '(');
    } else {
      WordOf(c.buf);
      ArgScanNothing();
    }
  }

  lemma WordOf(s: string)
    requires AllPlain(s)
    ensures TrimSpace(s) != "" ==> Word(TrimSpace(s))
  {
    TrimmedWord(s);
  }

  lemma ArgScanNothing()
    ensures ArgScan("") == Some(INSIDE)
  {
  }

  lemma CloseOk(c: Core, ctx: Context)
    requires CoreOk(c) && c.p.rawPart.None? && !c.escaped && StepClose(c, ctx).Went?
    ensures CoreOk(StepClose(c, ctx).core)
  {
    hide PartOk, ArgScan, Word;
    if c.inQuote {
      WriteOk(c, ')');
    } else {
      var n := |c.p.parens| - 1;
      ArgScanNext(c.p.args, ')');
      if n == 0 {
        var k := |c.p.padding|;
        if k > 0 {
          CallOk(c.p.padding[0], c.p.args);
        } else {
          ArgsOk(Part("", ArgsFlag, c.p.args, |c.p.braces|, c.p.parens[n]));
        }
      }
    }
  }

  lemma CallOk(p: Part, args: string)
    requires PaddingOk(p) && ArgsWord(args)
    ensures PartOk(p.(args := args))
  {
  }

  lemma ArgsOk(p: Part)
    requires p.flag == ArgsFlag && p.value == "" && ArgsWord(p.args)
    ensures PartOk(p)
  {
  }

  lemma BraceOk(c: Core, ctx: Context, i: nat, r: char)
    requires CoreOk(c) && c.p.rawPart.None? && !c.escaped && (r == '{' || r == '}') && StepBrace(c, ctx, i, r).Went?
    ensures CoreOk(StepBrace(c, ctx, i, r).core)
  {
    hide PartOk, ArgScan, PaddingOk, Flushed, TrimSpace;
    if c.inQuote {
      WriteOk(c, r);
    } else {
      FlushedOk(c, ctx);
      var d := Flushed(c, ctx);
      BracePartOk(Part([r], BracketFlag, "", |d.p.braces| + 1, ctx.At(i)), r);
      BracePartOk(Part([r], BracketFlag, "", |d.p.braces|, ctx.At(i)), r);
    }
  }

  lemma BracePartOk(p: Part, r: char)
    requires p.flag == BracketFlag && (r == '{' || r == '}') && p.value == [r] && p.args == ""
    ensures PartOk(p)
  {
  }

  lemma RawOk(c: Core, r: char)
    requires CoreOk(c) && c.p.rawPart.Some?
    ensures CoreOk(StepRaw(c, c.p.rawPart.value, r))
  {
    hide PartOk, ArgScan, PaddingOk;
    var raw := c.p.raw + [r];
    assert raw[1..] == c.p.raw[1..] + [r];
    if r == '`' {
      assert Inner(raw) == c.p.raw[1..];
      QuotedPartOk(c.p.rawPart.value.(value := Inner(raw)));
    }
  }

  lemma StepOk(c: Core, ctx: Context, i: nat, r: char)
    requires CoreOk(c) && StepChar(c, ctx, i, r).Went?
    ensures CoreOk(StepChar(c, ctx, i, r).core)
  {
    hide CoreOk, StepRaw, StepOutside, TrimSpace;
    if c.p.rawPart.Some? {
      RawOk(c, r);
    } else {
      StartOk(c, i);
      OutsideOk(if c.p.parens == [] && TrimSpace(c.buf) == "" then c.(bufStart := i) else c, ctx, i, r);
    }
  }

  lemma StartOk(c: Core, i: nat)
    requires CoreOk(c)
    ensures CoreOk(c.(bufStart := i))
  {
  }

  lemma Quoting(c: Core)
    requires CoreOk(c)
    ensures c.escaped ==> c.inQuote
  {
  }

  lemma OutsideOk(c: Core, ctx: Context, i: nat, r: char)
    requires CoreOk(c) && c.p.rawPart.None? && StepOutside(c, ctx, i, r).Went?
    ensures CoreOk(StepOutside(c, ctx, i, r).core)
  {
    hide CoreOk, StepQuote, StepBackquote, StepOpen, StepClose, StepBrace, Flushed;
    Quoting(c);
    if c.inQuote && c.escaped {
      WriteQuoted(c, r, true, false);
    } else if r == '\\' {
      WriteQuoted(c, r, c.inQuote, c.escaped || c.inQuote);
    } else if r == '"' {
      QuoteOk(c, ctx);
    } else if r == '`' {
      BackquoteOk(c, ctx, i);
    } else if r == '(' {
      OpenOk(c, ctx, i);
    } else if r == ')' {
      CloseOk(c, ctx);
    } else if r == '{' || r == '}' {
      BraceOk(c, ctx, i, r);
    } else if r == ';' && !c.inQuote && c.p.parens == [] {
      FlushedOk(c, ctx);
    } else {
      WriteOk(c, r);
    }
  }

  lemma {:induction false} ScanOk(c: Core, ctx: Context, line: string, n: nat)
    requires CoreOk(c) && n <= |line| && ScanTo(c, ctx, line, n).Went?
    ensures CoreOk(ScanTo(c, ctx, line, n).core)
    decreases n
  {
    hide CoreOk, StepChar;
    if n > 0 {
      ScanOk(c, ctx, line, n - 1);
      StepOk(ScanTo(c, ctx, line, n - 1).core, ctx, n - 1, line[n - 1]);
    }
  }

  /** What is kept between lines. */
  ghost predicate PendingOk(p: Pending) {
    CoreOk(Core(p, [], "", false, false, 0))
  }

  lemma BeginOk(p: Pending, line: string)
    requires PendingOk(p)
    ensures PendingOk(BeginLine(p, line))
  {
    hide PartOk, ArgScan, PaddingOk, NeedsAutoComma;
    ArgScanNext(p.args, ',');
  }

  /** Every part a line gives is well formed, and what is kept stays so. */
  lemma LineOk(p: Pending, lineNum: int, line: string)
    requires PendingOk(p) && Tokenized(p, lineNum, line).Line?
    ensures PendingOk(Tokenized(p, lineNum, line).pending)
    ensures forall i :: 0 <= i < |Tokenized(p, lineNum, line).parts| ==> PartOk(Tokenized(p, lineNum, line).parts[i])
  {
    hide ScanTo, BeginLine, PartOk, IsValidContinuation, HasSpacePrefix, TrimLeft, Flushed, ArgScan, PaddingOk;
    BeginOk(p, line);
    var text := LineText(p, line);
    var ctx := Context(lineNum, HasSpacePrefix(line), text);
    var start := Core(BeginLine(p, line), [], "", false, false, 0);
    ScanOk(start, ctx, text, |text|);
    var c := ScanTo(start, ctx, text, |text|).core;
    FlushedAtEnd(c, ctx);
  }

  lemma FlushedAtEnd(c: Core, ctx: Context)
    requires CoreOk(c) && !c.inQuote
    ensures CoreOk(Flushed(c, ctx)) && PendingOk(c.p)
  {
    hide PartOk, ArgScan, PaddingOk;
    if c.p.parens == [] {
      FlushedOk(c, ctx);
    } else {
      assert TrimSpace("") == "";
    }
  }

  /** So it is with every part of every text, also one spread over lines. */
  lemma {:induction false} TextOk(p: Pending, skipping: bool, lineNum: int, lines: seq<string>, i: nat)
    requires PendingOk(p) && TokenizedLines(p, skipping, lineNum, lines).Line?
    requires i < |TokenizedLines(p, skipping, lineNum, lines).parts|
    ensures PartOk(TokenizedLines(p, skipping, lineNum, lines).parts[i])
    decreases |lines|
  {
    hide Tokenized, PartOk, PendingOk, Closing, CommentLine, SkipsAfter;
    var after := SkipsAfter(skipping, lines[0]);
    if CommentLine(skipping, lines[0]) {
      TextOk(p, after, lineNum + 1, lines[1..], i);
    } else {
      LineOk(p, lineNum, lines[0]);
      var first := Tokenized(p, lineNum, lines[0]);
      if i >= |first.parts| {
        TextOk(first.pending, after, lineNum + 1, lines[1..], i - |first.parts|);
      }
    }
  }

  lemma ScanNext(c: Core, ctx: Context, line: string, n: nat)
    requires n < |line| && ScanTo(c, ctx, line, n).Went?
    ensures ScanTo(c, ctx, line, n + 1) == StepChar(ScanTo(c, ctx, line, n).core, ctx, n, line[n])
  {
    hide StepChar;
  }

  // ---------------------------------------------------------------- nesting

  /** The nesting after a part, if the part carries its nesting. */
  function NestAfter(part: Part, n: nat): Option<nat> {
    if part.flag != BracketFlag then if part.depth == n then Some(n) else None
    else if part.value == "{" then if part.depth == n + 1 then Some(n + 1) else None
    else if part.value == "}" then if n > 0 && part.depth == n then Some(n - 1) else None
    else None
  }

  /** The nesting after the parts, starting from `n`: every '}' has its '{', and every part
      carries the number of blocks it lies in, a brace that of its block. */
  function Nest(parts: seq<Part>, n: nat): Option<nat> {
    if parts == [] then Some(n)
    else
      match Nest(parts[..|parts| - 1], n)
      case None => None
      case Some(m) => NestAfter(parts[|parts| - 1], m)
  }

  lemma NestNext(parts: seq<Part>, part: Part, n: nat)
    ensures Nest(parts + [part], n) == match Nest(parts, n) { case None => None case Some(m) => NestAfter(part, m) }
  {
    assert (parts + [part])[..|parts|] == parts;
  }

  lemma {:induction false} NestConcat(a: seq<Part>, b: seq<Part>, n: nat)
    requires Nest(a, n).Some?
    ensures Nest(a + b, n) == Nest(b, Nest(a, n).value)
    decreases |b|
  {
    if b == [] {
      assert a + b == a;
    } else {
      var last := |b| - 1;
      assert a + b == a + b[..last] + [b[last]];
      NestConcat(a, b[..last], n);
      NestNext(a + b[..last], b[last], n);
    }
  }

  /** What is held back belongs to the nesting reached. */
  ghost predicate HeldOk(p: Pending) {
    && (forall part <- p.padding :: part.flag == CallFlag && part.depth == |p.braces|)
    && |p.padding| <= 1 && (p.parens == [] ==> p.padding == [])
    && (p.rawPart.Some? ==> p.rawPart.value.flag == QuotedFlag && p.rawPart.value.depth == |p.braces| && p.parens == [])
  }

  ghost predicate Nested(c: Core, n: nat) {
    HeldOk(c.p) && (c.p.rawPart.Some? ==> !c.inQuote) && Nest(c.parts, n) == Some(|c.p.braces|)
  }

  lemma FlushedNests(c: Core, ctx: Context, n: nat)
    requires Nested(c, n)
    ensures Nested(Flushed(c, ctx), n)
  {
    hide Nest, TrimSpace;
    var value := TrimSpace(c.buf);
    NestNext(c.parts, Part(value, TextFlag, "", |c.p.braces|, ctx.At(c.bufStart)), n);
  }

  lemma CloseNests(c: Core, ctx: Context, n: nat)
    requires Nested(c, n) && c.p.rawPart.None? && StepClose(c, ctx).Went?
    ensures Nested(StepClose(c, ctx).core, n)
  {
    hide Nest;
    if !c.inQuote && |c.p.parens| == 1 {
      if |c.p.padding| > 0 {
        var part := c.p.padding[0].(args := c.p.args);
        assert c.p.padding[0] in c.p.padding;
        assert c.p.padding[0 := part] == [part];
        NestNext(c.parts, part, n);
      } else {
        NestNext(c.parts, Part("", ArgsFlag, c.p.args, |c.p.braces|, c.p.parens[0]), n);
      }
    }
  }

  lemma BraceNests(c: Core, ctx: Context, i: nat, r: char, n: nat)
    requires Nested(c, n) && c.p.rawPart.None? && (r == '{' || r == '}') && StepBrace(c, ctx, i, r).Went?
    ensures Nested(StepBrace(c, ctx, i, r).core, n)
  {
    hide Nest, Flushed, TrimSpace;
    if !c.inQuote {
      FlushedNests(c, ctx, n);
      FlushedKeeps(c, ctx);
      var d := Flushed(c, ctx);
      var k := |d.p.braces|;
      NestNext(d.parts, Part([r], BracketFlag, "", if r == '{' then k + 1 else k, ctx.At(i)), n);
      assert ['{'] == "{" && ['}'] == "}";
    }
  }

  lemma FlushedKeeps(c: Core, ctx: Context)
    ensures Flushed(c, ctx).p == c.p && Flushed(c, ctx).inQuote == c.inQuote
  {
    hide TrimSpace;
  }

  lemma QuoteNests(c: Core, ctx: Context, n: nat)
    requires Nested(c, n) && c.p.rawPart.None?
    ensures Nested(StepQuote(c, ctx), n)
  {
    hide Nest, Flushed, TrimSpace;
    FlushedNests(c, ctx, n);
    FlushedKeeps(c, ctx);
    NestNext(c.parts, Part(Inner(c.buf + ['"']), QuotedFlag, "", |c.p.braces|, ctx.At(c.bufStart)), n);
  }

  lemma BackquoteNests(c: Core, ctx: Context, i: nat, n: nat)
    requires Nested(c, n) && c.p.rawPart.None?
    ensures Nested(StepBackquote(c, ctx, i), n)
  {
    hide Nest, Flushed, TrimSpace;
    FlushedNests(c, ctx, n);
    FlushedKeeps(c, ctx);
  }

  lemma OpenNests(c: Core, ctx: Context, i: nat, n: nat)
    requires Nested(c, n) && c.p.rawPart.None?
    ensures Nested(StepOpen(c, ctx, i), n)
  {
    hide Nest, Flushed, TrimSpace;
  }

  lemma WriteNests(c: Core, r: char, inQuote: bool, escaped: bool, n: nat)
    requires Nested(c, n) && c.p.rawPart.None?
    ensures Nested(Write(c, r).(inQuote := inQuote, escaped := escaped), n)
    ensures Nested(Write(c, r), n)
  {
    hide Nest;
  }

  lemma OtherNests(c: Core, ctx: Context, i: nat, r: char, n: nat)
    requires Nested(c, n) && c.p.rawPart.None? && (r !in {')', '{', '}'} || (c.inQuote && c.escaped))
    ensures StepOutside(c, ctx, i, r).Went? && Nested(StepOutside(c, ctx, i, r).core, n)
  {
    hide Nested, Flushed, StepQuote, StepBackquote, StepOpen, Write;
    WriteNests(c, r, c.inQuote, false, n);
    WriteNests(c, r, c.inQuote, c.escaped || c.inQuote, n);
    FlushedNests(c, ctx, n);
    QuoteNests(c, ctx, n);
    BackquoteNests(c, ctx, i, n);
    OpenNests(c, ctx, i, n);
    WriteKeeps(c, r);
  }

  lemma WriteKeeps(c: Core, r: char)
    ensures Write(c, r).inQuote == c.inQuote && Write(c, r).escaped == c.escaped
  {
  }

  lemma StepNests(c: Core, ctx: Context, i: nat, r: char, n: nat)
    requires Nested(c, n) && StepChar(c, ctx, i, r).Went?
    ensures Nested(StepChar(c, ctx, i, r).core, n)
  {
    hide Nest, Flushed, TrimSpace, StepQuote, StepBackquote, StepOpen, StepClose, StepBrace;
    if c.p.rawPart.Some? {
      NestNext(c.parts, c.p.rawPart.value.(value := Inner(c.p.raw + [r])), n);
    } else {
      var d := if c.p.parens == [] && TrimSpace(c.buf) == "" then c.(bufStart := i) else c;
      if d.inQuote && d.escaped {
        OtherNests(d, ctx, i, r, n);
      } else if r == ')' {
        CloseNests(d, ctx, n);
      } else if r == '{' || r == '}' {
        BraceNests(d, ctx, i, r, n);
      } else {
        OtherNests(d, ctx, i, r, n);
      }
    }
  }

  lemma {:induction false} ScanNests(c: Core, ctx: Context, line: string, k: nat, n: nat)
    requires Nested(c, n) && k <= |line| && ScanTo(c, ctx, line, k).Went?
    ensures Nested(ScanTo(c, ctx, line, k).core, n)
    decreases k
  {
    hide Nested, StepChar;
    if k > 0 {
      ScanNests(c, ctx, line, k - 1, n);
      StepNests(ScanTo(c, ctx, line, k - 1).core, ctx, k - 1, line[k - 1], n);
    }
  }

  /** A line's parts carry their nesting, from the one the line begins in. */
  lemma LineNests(p: Pending, lineNum: int, line: string)
    requires HeldOk(p) && Tokenized(p, lineNum, line).Line?
    ensures var r := Tokenized(p, lineNum, line);
            HeldOk(r.pending) && Nest(r.parts, |p.braces|) == Some(|r.pending.braces|)
  {
    hide ScanTo, IsValidContinuation, HasSpacePrefix, TrimLeft, Flushed, NeedsAutoComma;
    var text := LineText(p, line);
    var ctx := Context(lineNum, HasSpacePrefix(line), text);
    var start := Core(BeginLine(p, line), [], "", false, false, 0);
    ScanNests(start, ctx, text, |text|, |p.braces|);
    var c := ScanTo(start, ctx, text, |text|).core;
    FlushedNests(c, ctx, |p.braces|);
    FlushedKeeps(c, ctx);
  }

  /** When every line and the end are accepted, the braces are balanced and every part
      carries its nesting. */
  lemma {:induction false} BracesBalance(p: Pending, skipping: bool, lineNum: int, lines: seq<string>)
    requires HeldOk(p) && TokenizedLines(p, skipping, lineNum, lines).Line?
    ensures Nest(TokenizedLines(p, skipping, lineNum, lines).parts, |p.braces|) == Some(0)
    decreases |lines|
  {
    hide Tokenized, Nest, HeldOk, CommentLine, SkipsAfter;
    if lines == [] {
      NestNothing(|p.braces|);
    } else {
      var after := SkipsAfter(skipping, lines[0]);
      if CommentLine(skipping, lines[0]) {
        BracesBalance(p, after, lineNum + 1, lines[1..]);
      } else {
        LineNests(p, lineNum, lines[0]);
        var first := Tokenized(p, lineNum, lines[0]);
        BracesBalance(first.pending, after, lineNum + 1, lines[1..]);
        NestConcat(first.parts, TokenizedLines(first.pending, after, lineNum + 1, lines[1..]).parts, |p.braces|);
      }
    }
  }

  lemma NestNothing(n: nat)
    ensures Nest([], n) == Some(n)
  {
  }
}
