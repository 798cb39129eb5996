/**
 Reading back: what is written on a line, with spaces and ';' between its parts, is what the
 tokenizer reads, part by part and at its place; and the parts of any accepted text, written
 on one line, are read as the same parts.
 */
module TokenReading {
  import opened Common
  import opened TokenSteps
  import opened TokenParts

  // ---------------------------------------------------------------- lines of pieces

  datatype Piece = TextPiece(text: string) | QuotedPiece(text: string) | RawPiece(text: string)
                 | CallPiece(name: string, args: string) | ArgsPiece(args: string) | OpenPiece | ClosePiece

  /** A piece and what stands in front of it. */
  datatype Spaced = Spaced(gap: string, piece: Piece)

  function Shown(p: Piece): string {
    match p
    case TextPiece(text) => text
    case QuotedPiece(text) => "\"" + (text + "\"")
    case RawPiece(text) => "`" + (text + "`")
    case CallPiece(name, args) => name + ("(" + (args + ")"))
    case ArgsPiece(args) => "(" + (args + ")")
    case OpenPiece => "{"
    case ClosePiece => "}"
  }

  function Written(line: seq<Spaced>): string {
    if line == [] then "" else line[0].gap + (Shown(line[0].piece) + Written(line[1..]))
  }

  predicate PieceOk(p: Piece) {
    match p
    case TextPiece(text) => Word(text)
    case QuotedPiece(text) => QuotedWord(text)
    case RawPiece(text) => '`' !in text
    case CallPiece(name, args) => Word(name) && ArgsWord(args)
    case ArgsPiece(args) => ArgsWord(args)
    case _ => true
  }

  predicate AllSpaces(s: string) {
    forall i :: 0 <= i < |s| ==> IsSpace(s[i])
  }

  predicate GapOk(gap: string) {
    forall i :: 0 <= i < |gap| ==> IsSpace(gap[i]) || gap[i] == ';'
  }

  /** Without a ';' in front, it would belong to the text before it. */
  predicate NeedsBreak(p: Piece) {
    p.TextPiece? || p.QuotedPiece? || p.CallPiece? || p.ArgsPiece?
  }

  /** The depth of blocks after a piece. */
  function DepthAfter(p: Piece, depth: nat): nat {
    match p
    case OpenPiece => depth + 1
    case ClosePiece => if depth > 0 then depth - 1 else 0
    case _ => depth
  }

  predicate Readable(line: seq<Spaced>, afterText: bool, depth: nat) {
    line == [] ||
    var s := line[0];
    && GapOk(s.gap) && PieceOk(s.piece)
    && (afterText && NeedsBreak(s.piece) ==> ';' in s.gap)
    && (s.piece.ClosePiece? ==> depth > 0)
    && Readable(line[1..], s.piece.TextPiece?, DepthAfter(s.piece, depth))
  }

  /** The part that a piece stands for, in `depth` blocks. */
  function PartOf(p: Piece, depth: nat, position: Position): Part {
    match p
    case TextPiece(text) => Part(text, TextFlag, "", depth, position)
    case QuotedPiece(text) => Part(text, QuotedFlag, "", depth, position)
    case RawPiece(text) => Part(text, QuotedFlag, "", depth, position)
    case CallPiece(name, args) => Part(name, CallFlag, args, depth, position)
    case ArgsPiece(args) => Part("", ArgsFlag, args, depth, position)
    case OpenPiece => Part("{", BracketFlag, "", depth + 1, position)
    case ClosePiece => Part("}", BracketFlag, "", depth, position)
  }

  /** The blocks that are open after a piece. */
  function BracesAfter(p: Piece, braces: seq<Position>, position: Position): (r: seq<Position>)
    ensures |r| == DepthAfter(p, |braces|)
  {
    match p
    case OpenPiece => braces + [position]
    case ClosePiece => if braces == [] then [] else braces[..|braces| - 1]
    case _ => braces
  }

  /** The parts of a line's pieces from character `start` on, and the blocks then open. */
  function PartsOf(line: seq<Spaced>, ctx: Context, start: nat, braces: seq<Position>): (seq<Part>, seq<Position>) {
    if line == [] then ([], braces)
    else
      var p, at := line[0].piece, start + |line[0].gap|;
      var (rest, open) := PartsOf(line[1..], ctx, at + |Shown(p)|, BracesAfter(p, braces, ctx.At(at)));
      ([PartOf(p, |braces|, ctx.At(at))] + rest, open)
  }

  // ---------------------------------------------------------------- scanning from the front

  function Scan(c: Core, ctx: Context, i: nat, s: string): Stepped
    decreases |s|
  {
    if s == "" then Went(c)
    else
      match StepChar(c, ctx, i, s[0])
      case Failed(e) => Failed(e)
      case Went(d) => Scan(d, ctx, i + 1, s[1..])
  }

  lemma {:induction false} ScanConcat(c: Core, ctx: Context, i: nat, a: string, b: string)
    ensures Scan(c, ctx, i, a + b) ==
      match Scan(c, ctx, i, a) { case Failed(e) => Failed(e) case Went(d) => Scan(d, ctx, i + |a|, b) }
    decreases |a|
  {
    hide StepChar;
    if a == "" {
      assert a + b == b;
    } else {
      assert (a + b)[0] == a[0] && (a + b)[1..] == a[1..] + b;
      if StepChar(c, ctx, i, a[0]).Went? {
        ScanConcat(StepChar(c, ctx, i, a[0]).core, ctx, i + 1, a[1..], b);
      }
    }
  }

  lemma ScanOne(c: Core, ctx: Context, i: nat, r: char)
    ensures Scan(c, ctx, i, [r]) == StepChar(c, ctx, i, r)
  {
    hide StepChar;
    assert [r][1..] == "";
  }

  lemma {:induction false} ScanToIsScan(c: Core, ctx: Context, line: string, n: nat)
    requires n <= |line|
    ensures ScanTo(c, ctx, line, n) == Scan(c, ctx, 0, line[..n])
    decreases n
  {
    hide StepChar, Scan;
    if n == 0 {
      ScanEmpty(c, ctx, 0);
      assert line[..0] == "";
    } else {
      ScanToIsScan(c, ctx, line, n - 1);
      assert line[..n] == line[..n - 1] + [line[n - 1]];
      ScanConcat(c, ctx, 0, line[..n - 1], [line[n - 1]]);
      if ScanTo(c, ctx, line, n - 1).Went? {
        ScanOne(ScanTo(c, ctx, line, n - 1).core, ctx, n - 1, line[n - 1]);
      }
    }
  }

  lemma ScanEmpty(c: Core, ctx: Context, i: nat)
    ensures Scan(c, ctx, i, "") == Went(c)
  {
  }

  lemma ScanFirst(c: Core, ctx: Context, i: nat, s: string)
    requires s != "" && StepChar(c, ctx, i, s[0]).Went?
    ensures Scan(c, ctx, i, s) == Scan(StepChar(c, ctx, i, s[0]).core, ctx, i + 1, s[1..])
  {
    hide StepChar;
  }

  // ---------------------------------------------------------------- positions

  /** A position counts the bytes of the characters before it: one up to U+7F, two up to U+7FF,
      three up to U+FFFF, four for the others. */
  lemma {:induction false} BytesBefore(line: string, i: nat)
    requires i < |line|
    ensures ByteIndex(line, 0) == 0
    ensures line[i] < '\U{80}' ==> ByteIndex(line, i + 1) == ByteIndex(line, i) + 1
    ensures '\U{80}' <= line[i] < '\U{800}' ==> ByteIndex(line, i + 1) == ByteIndex(line, i) + 2
    ensures '\U{800}' <= line[i] < '\U{10000}' ==> ByteIndex(line, i + 1) == ByteIndex(line, i) + 3
    ensures '\U{10000}' <= line[i] ==> ByteIndex(line, i + 1) == ByteIndex(line, i) + 4
    decreases i
  {
    if i > 0 {
      BytesBefore(line[1..], i - 1);
    }
  }

  // ---------------------------------------------------------------- spaces

  lemma {:induction false} TrimLeftSpaces(s: string, v: string)
    requires AllSpaces(s) && (v == "" || !IsSpace(v[0]))
    ensures TrimLeft(s + v, IsSpace) == v
    decreases |s|
  {
    hide IsSpace;
    if s == "" {
      assert s + v == v;
    } else {
      assert (s + v)[1..] == s[1..] + v;
      TrimLeftSpaces(s[1..], v);
    }
  }

  lemma BlankIff(s: string)
    ensures TrimSpace(s) == "" <==> AllSpaces(s)
  {
    hide IsSpace;
    if AllSpaces(s) {
      TrimLeftSpaces(s, "");
      assert s + "" == s;
    } else {
      var i :| 0 <= i < |s| && !IsSpace(s[i]);
      KeepsLeft(s, i);
      var l := TrimLeft(s, IsSpace);
      KeepsRight(l, 0);
    }
  }

  lemma {:induction false} KeepsLeft(s: string, i: nat)
    requires i < |s| && !IsSpace(s[i])
    ensures var l := TrimLeft(s, IsSpace); l != "" && !IsSpace(l[0])
    decreases |s|
  {
    hide IsSpace;
    if IsSpace(s[0]) {
      KeepsLeft(s[1..], i - 1);
    }
  }

  lemma {:induction false} KeepsRight(s: string, i: nat)
    requires i < |s| && !IsSpace(s[i])
    ensures TrimRight(s, IsSpace) != ""
    decreases |s|
  {
    hide IsSpace;
    if IsSpace(s[|s| - 1]) {
      KeepsRight(s[..|s| - 1], i);
    }
  }

  /** A trimmed text behind spaces is what trimming gives. */
  lemma TrimsTo(s: string, v: string)
    requires AllSpaces(s) && v != "" && TrimSpace(v) == v
    ensures TrimSpace(s + v) == v && !IsSpace(v[0])
  {
    hide IsSpace;
    TrimLeftPart(v, IsSpace);
    TrimRightPart(TrimLeft(v, IsSpace), IsSpace);
    assert TrimLeft(v, IsSpace) == v;
    TrimLeftSpaces(s, v);
  }

  lemma {:induction false} TrimLeftMore(s: string, r: char)
    requires IsSpace(r) && !AllSpaces(s)
    ensures TrimLeft(s + [r], IsSpace) == TrimLeft(s, IsSpace) + [r]
    decreases |s|
  {
    hide IsSpace;
    if IsSpace(s[0]) {
      assert (s + [r])[1..] == s[1..] + [r];
      assert s == [s[0]] + s[1..];
      TrimLeftMore(s[1..], r);
    }
  }

  /** A space at the end changes nothing. */
  lemma TrimsSame(s: string, r: char)
    requires IsSpace(r)
    ensures TrimSpace(s + [r]) == TrimSpace(s)
  {
    hide IsSpace;
    if AllSpaces(s) {
      BlankIff(s);
      BlankIff(s + [r]);
    } else {
      TrimLeftMore(s, r);
      var l := TrimLeft(s, IsSpace);
      assert (l + [r])[..|l|] == l;
    }
  }

  // ---------------------------------------------------------------- pieces

  /** Nothing is open but `braces`. */
  function Rest(braces: seq<Position>): Pending {
    Pending(None, "", [], braces, "", [])
  }

  /** Between pieces: the parts so far are `out`, with the text not yet flushed. */
  predicate Between(c: Core, ctx: Context, braces: seq<Position>, out: seq<Part>) {
    c.p == Rest(braces) && !c.inQuote && !c.escaped && Flushed(c, ctx).parts == out
  }

  predicate Clean(c: Core) {
    TrimSpace(c.buf) == ""
  }

  /** In a text. */
  function InText(braces: seq<Position>, out: seq<Part>, buf: string, start: nat): Core {
    Core(Rest(braces), out, buf, false, false, start)
  }

  lemma TextStep(braces: seq<Position>, out: seq<Part>, buf: string, start: nat, ctx: Context, i: nat, r: char)
    requires Plain(r)
    ensures StepChar(InText(braces, out, buf, start), ctx, i, r) ==
            Went(InText(braces, out, buf + [r], if TrimSpace(buf) == "" then i else start))
  {
    hide TrimSpace;
  }

  lemma NotBlank(s: string, i: nat)
    requires i < |s| && !IsSpace(s[i])
    ensures TrimSpace(s) != ""
  {
    BlankIff(s);
  }

  /** Text goes on. */
  lemma {:induction false} TextGoesOn(braces: seq<Position>, out: seq<Part>, buf: string, start: nat, ctx: Context,
                                      i: nat, s: string, k: nat)
    requires AllPlain(s) && k < |buf| && !IsSpace(buf[k])
    ensures Scan(InText(braces, out, buf, start), ctx, i, s) == Went(InText(braces, out, buf + s, start))
    decreases |s|
  {
    hide StepChar, IsSpace, TrimSpace, InText, Plain, Scan;
    if s == "" {
      ScanEmpty(InText(braces, out, buf, start), ctx, i);
      assert buf + s == buf;
    } else {
      NotBlank(buf, k);
      TextStep(braces, out, buf, start, ctx, i, s[0]);
      ScanFirst(InText(braces, out, buf, start), ctx, i, s);
      TextGoesOn(braces, out, buf + [s[0]], start, ctx, i + 1, s[1..], k);
      assert buf + [s[0]] + s[1..] == buf + s;
    }
  }

  /** A text from its first character on. */
  lemma TextScan(braces: seq<Position>, out: seq<Part>, buf: string, start: nat, ctx: Context, i: nat, v: string)
    requires TrimSpace(buf) == "" && Word(v)
    ensures Scan(InText(braces, out, buf, start), ctx, i, v) == Went(InText(braces, out, buf + v, i))
    ensures TrimSpace(buf + v) == v
  {
    hide StepChar, IsSpace, TrimSpace, InText, Plain, Scan;
    BlankIff(buf);
    TrimsTo(buf, v);
    TextStep(braces, out, buf, start, ctx, i, v[0]);
    ScanFirst(InText(braces, out, buf, start), ctx, i, v);
    TextGoesOn(braces, out, buf + [v[0]], i, ctx, i + 1, v[1..], |buf|);
    assert buf + [v[0]] + v[1..] == buf + v;
  }

  /** Between pieces the core is in a text, perhaps a blank one. */
  lemma CleanIsText(c: Core, ctx: Context, braces: seq<Position>, out: seq<Part>)
    requires Between(c, ctx, braces, out)
    ensures c == InText(braces, c.parts, c.buf, c.bufStart)
    ensures Clean(c) ==> c.parts == out
  {
    hide TrimSpace;
  }

  lemma TextReads(c: Core, ctx: Context, i: nat, v: string, braces: seq<Position>, out: seq<Part>)
    requires Between(c, ctx, braces, out) && Clean(c) && Word(v)
    ensures var r := Scan(c, ctx, i, v);
            r.Went? && Between(r.core, ctx, braces, out + [Part(v, TextFlag, "", |braces|, ctx.At(i))])
  {
    hide TrimSpace, Scan, Word;
    CleanIsText(c, ctx, braces, out);
    TextScan(braces, c.parts, c.buf, c.bufStart, ctx, i, v);
    assert v != "" by { NotEmpty(v); }
  }

  lemma NotEmpty(v: string)
    requires Word(v)
    ensures v != ""
  {
  }

  // ---- gaps

  lemma GapStep(c: Core, ctx: Context, i: nat, r: char, braces: seq<Position>, out: seq<Part>)
    requires Between(c, ctx, braces, out) && (IsSpace(r) || r == ';')
    ensures var d := StepChar(c, ctx, i, r);
            d.Went? && Between(d.core, ctx, braces, out) && (Clean(c) || r == ';' ==> Clean(d.core))
  {
    hide TrimSpace, IsSpace;
    assert TrimSpace("") == "" by { BlankIff(""); }
    CleanIsText(c, ctx, braces, out);
    if r != ';' {
      SpaceIsPlain(r);
      TextStep(braces, c.parts, c.buf, c.bufStart, ctx, i, r);
      TrimsSame(c.buf, r);
    }
  }

  lemma SpaceIsPlain(r: char)
    requires IsSpace(r)
    ensures Plain(r)
  {
  }

  lemma {:induction false} GapReads(c: Core, ctx: Context, i: nat, gap: string, braces: seq<Position>, out: seq<Part>)
    requires Between(c, ctx, braces, out) && GapOk(gap)
    ensures var d := Scan(c, ctx, i, gap);
            d.Went? && Between(d.core, ctx, braces, out) && (Clean(c) || ';' in gap ==> Clean(d.core))
    decreases |gap|
  {
    hide StepChar, IsSpace, Between, Clean, Scan;
    if gap == "" {
      ScanEmpty(c, ctx, i);
    } else {
      GapStep(c, ctx, i, gap[0], braces, out);
      ScanFirst(c, ctx, i, gap);
      GapReads(StepChar(c, ctx, i, gap[0]).core, ctx, i + 1, gap[1..], braces, out);
    }
  }

  // ---- quoted texts

  /** Between the quotes, which opened at `start`. */
  function InQuotes(braces: seq<Position>, out: seq<Part>, text: string, escaped: bool, start: nat): Core {
    Core(Rest(braces), out, "\"" + text, true, escaped, start)
  }

  lemma {:induction false} QuotePrefix(q: string, k: nat)
    requires k <= |q| && QuoteScan(q).Some?
    ensures QuoteScan(q[..k]).Some?
    decreases |q| - k
  {
    if k < |q| {
      QuotePrefix(q, k + 1);
      assert q[..k + 1] == q[..k] + [q[k]];
      QuoteScanNext(q[..k], q[k]);
    } else {
      assert q[..k] == q;
    }
  }

  lemma QuoteOpens(c: Core, ctx: Context, i: nat, braces: seq<Position>, out: seq<Part>)
    requires Between(c, ctx, braces, out) && Clean(c)
    ensures StepChar(c, ctx, i, '"') == Went(InQuotes(braces, out, "", false, i))
  {
    hide TrimSpace;
    assert "\"" + "" == "\"";
  }

  lemma InQuotesStep(braces: seq<Position>, out: seq<Part>, text: string, escaped: bool, start: nat, ctx: Context,
                     i: nat, r: char)
    requires QuoteStep(escaped, r).Some?
    ensures StepChar(InQuotes(braces, out, text, escaped, start), ctx, i, r) ==
            Went(InQuotes(braces, out, text + [r], QuoteStep(escaped, r).value, start))
  {
    hide TrimSpace, IsSpace, StepOpen, StepBackquote, StepClose, StepBrace, StepQuote;
    NotBlank("\"" + text, 0) by { QuoteIsNoSpace(); }
    assert ("\"" + text) + [r] == "\"" + (text + [r]);
    if r in {'`', '(', ')', '{', '}'} {
      QuotedMarks(InQuotes(braces, out, text, escaped, start), ctx, i, r);
    }
  }

  lemma QuoteIsNoSpace()
    ensures !IsSpace('"')
  {
  }

  /** Between quotes the marks are ordinary. */
  lemma QuotedMarks(c: Core, ctx: Context, i: nat, r: char)
    requires c.inQuote
    ensures StepBackquote(c, ctx, i) == Write(c, '`') && StepOpen(c, ctx, i) == Write(c, '(')
    ensures StepClose(c, ctx) == Went(Write(c, ')')) && StepBrace(c, ctx, i, r) == Went(Write(c, r))
  {
    hide Flushed, TrimSpace;
  }

  lemma {:induction false} QuoteGoesOn(braces: seq<Position>, out: seq<Part>, text: string, escaped: bool, start: nat,
                                       ctx: Context, i: nat, s: string)
    requires QuoteScan(text) == Some(escaped) && QuoteScan(text + s).Some?
    ensures Scan(InQuotes(braces, out, text, escaped, start), ctx, i, s) ==
            Went(InQuotes(braces, out, text + s, QuoteScan(text + s).value, start))
    decreases |s|
  {
    hide StepChar, InQuotes, Scan, QuoteScan, QuoteStep;
    if s == "" {
      ScanEmpty(InQuotes(braces, out, text, escaped, start), ctx, i);
      assert text + s == text;
    } else {
      var r := s[0];
      assert text + s == (text + [r]) + s[1..];
      QuotePrefix(text + s, |text| + 1);
      assert (text + s)[..|text| + 1] == text + [r];
      QuoteScanNext(text, r);
      InQuotesStep(braces, out, text, escaped, start, ctx, i, r);
      ScanFirst(InQuotes(braces, out, text, escaped, start), ctx, i, s);
      QuoteGoesOn(braces, out, text + [r], QuoteStep(escaped, r).value, start, ctx, i + 1, s[1..]);
    }
  }

  lemma QuoteCloses(braces: seq<Position>, out: seq<Part>, text: string, start: nat, ctx: Context, i: nat)
    ensures StepChar(InQuotes(braces, out, text, false, start), ctx, i, '"') ==
            Went(InText(braces, out + [Part(text, QuotedFlag, "", |braces|, ctx.At(start))], "", start))
  {
    hide TrimSpace, IsSpace;
    NotBlank("\"" + text, 0) by { QuoteIsNoSpace(); }
    assert Inner(("\"" + text) + ['"']) == text;
  }

  lemma QuotedReads(c: Core, ctx: Context, i: nat, q: string, braces: seq<Position>, out: seq<Part>)
    requires Between(c, ctx, braces, out) && Clean(c) && QuotedWord(q)
    ensures var part := Part(q, QuotedFlag, "", |braces|, ctx.At(i));
            Scan(c, ctx, i, "\"" + (q + "\"")) == Went(InText(braces, out + [part], "", i))
  {
    hide StepChar, InQuotes, Scan, InText, Between, Clean;
    var s := "\"" + (q + "\"");
    QuoteOpens(c, ctx, i, braces, out);
    ScanFirst(c, ctx, i, s);
    assert s[0] == '"' && s[1..] == q + "\"";
    assert "" + q == q;
    QuoteGoesOn(braces, out, "", false, i, ctx, i + 1, q);
    QuoteCloses(braces, out, q, i, ctx, i + 1 + |q|);
    ScanConcat(InQuotes(braces, out, "", false, i), ctx, i + 1, q, "\"");
    ScanOne(InQuotes(braces, out, q, false, i), ctx, i + 1 + |q|, '"');
    assert "\"" == ['"'];
  }

  // ---- raw texts

  /** In a raw text, whose part is `part` and whose text so far is `text`. */
  function InRaw(braces: seq<Position>, out: seq<Part>, part: Part, text: string, start: nat): Core {
    Core(Rest(braces).(rawPart := Some(part), raw := "`" + text), out, "", false, false, start)
  }

  lemma RawOpens(c: Core, ctx: Context, i: nat, braces: seq<Position>, out: seq<Part>) returns (start: nat)
    requires Between(c, ctx, braces, out)
    ensures StepChar(c, ctx, i, '`') ==
            Went(InRaw(braces, out, Part("", QuotedFlag, "", |braces|, ctx.At(i)), "", start))
  {
    hide TrimSpace;
    start := StepChar(c, ctx, i, '`').core.bufStart;
    assert "" + "`" == "`" + "";
  }

  lemma {:induction false} RawGoesOn(braces: seq<Position>, out: seq<Part>, part: Part, text: string, start: nat,
                                     ctx: Context, i: nat, s: string)
    requires '`' !in s
    ensures Scan(InRaw(braces, out, part, text, start), ctx, i, s) == Went(InRaw(braces, out, part, text + s, start))
    decreases |s|
  {
    hide StepChar, InRaw, Scan;
    if s == "" {
      ScanEmpty(InRaw(braces, out, part, text, start), ctx, i);
      assert text + s == text;
    } else {
      assert text + s == (text + [s[0]]) + s[1..];
      RawStep(braces, out, part, text, start, ctx, i, s[0]);
      ScanFirst(InRaw(braces, out, part, text, start), ctx, i, s);
      RawGoesOn(braces, out, part, text + [s[0]], start, ctx, i + 1, s[1..]);
    }
  }

  lemma RawStep(braces: seq<Position>, out: seq<Part>, part: Part, text: string, start: nat, ctx: Context, i: nat,
                r: char)
    requires r != '`'
    ensures StepChar(InRaw(braces, out, part, text, start), ctx, i, r) ==
            Went(InRaw(braces, out, part, text + [r], start))
  {
    assert ("`" + text) + [r] == "`" + (text + [r]);
  }

  lemma RawCloses(braces: seq<Position>, out: seq<Part>, part: Part, text: string, start: nat, ctx: Context, i: nat)
    ensures StepChar(InRaw(braces, out, part, text, start), ctx, i, '`') ==
            Went(InText(braces, out + [part.(value := text)], "", start))
  {
    assert Inner(("`" + text) + ['`']) == text;
  }

  lemma RawReads(c: Core, ctx: Context, i: nat, v: string, braces: seq<Position>, out: seq<Part>)
    returns (start: nat)
    requires Between(c, ctx, braces, out) && '`' !in v
    ensures var part := Part(v, QuotedFlag, "", |braces|, ctx.At(i));
            Scan(c, ctx, i, "`" + (v + "`")) == Went(InText(braces, out + [part], "", start))
  {
    hide StepChar, InRaw, Scan, InText, Between;
    var s := "`" + (v + "`");
    start := RawOpens(c, ctx, i, braces, out);
    var part := Part("", QuotedFlag, "", |braces|, ctx.At(i));
    ScanFirst(c, ctx, i, s);
    assert s[0] == '`' && s[1..] == v + "`";
    assert "" + v == v;
    RawGoesOn(braces, out, part, "", start, ctx, i + 1, v);
    RawCloses(braces, out, part, v, start, ctx, i + 1 + |v|);
    ScanConcat(InRaw(braces, out, part, "", start), ctx, i + 1, v, "`");
    ScanOne(InRaw(braces, out, part, v, start), ctx, i + 1 + |v|, '`');
    assert "`" == ['`'];
  }

  // ---- calls and argument lists

  /** In parentheses that opened at `origin`, after `args`. */
  ghost predicate Reading(c: Core, args: string, padding: seq<Part>, origin: Position, braces: seq<Position>,
                          out: seq<Part>)
  {
    && c.p.rawPart.None? && c.p.raw == "" && c.p.braces == braces && c.p.args == args && c.p.padding == padding
    && c.p.parens != [] && c.p.parens[0] == origin
    && c.parts == out && c.buf == ""
    && ArgScan(args) == Some(ArgState(|c.p.parens|, c.inQuote, c.escaped))
  }

  lemma {:induction false} ArgPrefix(a: string, k: nat)
    requires k <= |a| && ArgScan(a).Some?
    ensures ArgScan(a[..k]).Some?
    decreases |a| - k
  {
    if k < |a| {
      ArgPrefix(a, k + 1);
      assert a[..k + 1] == a[..k] + [a[k]];
      ArgScanNext(a[..k], a[k]);
    } else {
      assert a[..k] == a;
    }
  }

  lemma ReadingStep(c: Core, ctx: Context, i: nat, args: string, r: char, padding: seq<Part>, origin: Position,
                    braces: seq<Position>, out: seq<Part>)
    requires Reading(c, args, padding, origin, braces, out) && ArgScan(args + [r]).Some?
    ensures var d := StepChar(c, ctx, i, r); d.Went? && Reading(d.core, args + [r], padding, origin, braces, out)
  {
    hide ArgScan, Flushed, TrimSpace;
    ArgScanNext(args, r);
  }

  lemma {:induction false} ArgsGoOn(c: Core, ctx: Context, i: nat, args: string, s: string, padding: seq<Part>,
                                    origin: Position, braces: seq<Position>, out: seq<Part>)
    requires Reading(c, args, padding, origin, braces, out) && ArgScan(args + s).Some?
    ensures var d := Scan(c, ctx, i, s); d.Went? && Reading(d.core, args + s, padding, origin, braces, out)
    decreases |s|
  {
    hide Reading, StepChar, ArgScan, Scan;
    if s == "" {
      ScanEmpty(c, ctx, i);
      assert args + s == args;
    } else {
      assert args + s == (args + [s[0]]) + s[1..];
      ArgPrefix(args + s, |args| + 1);
      assert (args + s)[..|args| + 1] == args + [s[0]];
      ReadingStep(c, ctx, i, args, s[0], padding, origin, braces, out);
      ScanFirst(c, ctx, i, s);
      ArgsGoOn(StepChar(c, ctx, i, s[0]).core, ctx, i + 1, args + [s[0]], s[1..], padding, origin, braces, out);
    }
  }

  /** The opening parenthesis after a name, or with nothing before it. */
  lemma ParenOpens(c: Core, ctx: Context, i: nat, braces: seq<Position>, out: seq<Part>)
    requires c == InText(braces, out, c.buf, c.bufStart)
    ensures var d := StepChar(c, ctx, i, '('); var v := TrimSpace(c.buf);
            d.Went? &&
            Reading(d.core, "", if v == "" then [] else [Part(v, CallFlag, "", |braces|, ctx.At(c.bufStart))],
              ctx.At(i), braces, out)
  {
    hide TrimSpace;
    ArgScanNothing();
  }

  /** The closing parenthesis gives the part. */
  lemma ParenCloses(c: Core, ctx: Context, i: nat, args: string, padding: seq<Part>, origin: Position,
                    braces: seq<Position>, out: seq<Part>)
    requires Reading(c, args, padding, origin, braces, out) && ArgsWord(args) && |padding| <= 1
    ensures var d := StepChar(c, ctx, i, ')');
            && d.Went? && d.core == InText(braces, d.core.parts, "", d.core.bufStart)
            && d.core.parts == out + if padding == [] then [Part("", ArgsFlag, args, |braces|, origin)]
                                     else [padding[0].(args := args)]
  {
    hide ArgScan, TrimSpace, Flushed;
  }

  lemma ParensRead(c: Core, ctx: Context, i: nat, args: string, braces: seq<Position>, out: seq<Part>)
    returns (start: nat)
    requires c == InText(braces, out, c.buf, c.bufStart) && ArgsWord(args)
    ensures var v := TrimSpace(c.buf);
            var part := if v == "" then Part("", ArgsFlag, args, |braces|, ctx.At(i))
                        else Part(v, CallFlag, args, |braces|, ctx.At(c.bufStart));
            Scan(c, ctx, i, "(" + (args + ")")) == Went(InText(braces, out + [part], "", start))
  {
    hide StepChar, Reading, ArgScan, Scan, TrimSpace;
    var v := TrimSpace(c.buf);
    var padding := if v == "" then [] else [Part(v, CallFlag, "", |braces|, ctx.At(c.bufStart))];
    var s := "(" + (args + ")");
    assert s[0] == '(' && s[1..] == args + ")";
    ParenOpens(c, ctx, i, braces, out);
    ScanFirst(c, ctx, i, s);
    var d := StepChar(c, ctx, i, '(').core;
    assert "" + args == args;
    ArgsGoOn(d, ctx, i + 1, "", args, padding, ctx.At(i), braces, out);
    var e := Scan(d, ctx, i + 1, args).core;
    ScanConcat(d, ctx, i + 1, args, ")");
    assert ")" == [')'];
    ScanOne(e, ctx, i + 1 + |args|, ')');
    ParenCloses(e, ctx, i + 1 + |args|, args, padding, ctx.At(i), braces, out);
    start := StepChar(e, ctx, i + 1 + |args|, ')').core.bufStart;
  }

  lemma ArgsRead(c: Core, ctx: Context, i: nat, args: string, braces: seq<Position>, out: seq<Part>)
    returns (start: nat)
    requires Between(c, ctx, braces, out) && Clean(c) && ArgsWord(args)
    ensures var part := Part("", ArgsFlag, args, |braces|, ctx.At(i));
            Scan(c, ctx, i, "(" + (args + ")")) == Went(InText(braces, out + [part], "", start))
  {
    hide Scan, ArgScan, TrimSpace, InText, ArgsWord;
    CleanIsText(c, ctx, braces, out);
    assert TrimSpace(c.buf) == "";
    start := ParensRead(c, ctx, i, args, braces, out);
  }

  lemma CallReads(c: Core, ctx: Context, i: nat, name: string, args: string, braces: seq<Position>, out: seq<Part>)
    returns (start: nat)
    requires Between(c, ctx, braces, out) && Clean(c) && Word(name) && ArgsWord(args)
    ensures var part := Part(name, CallFlag, args, |braces|, ctx.At(i));
            Scan(c, ctx, i, name + ("(" + (args + ")"))) == Went(InText(braces, out + [part], "", start))
  {
    hide Scan, ArgScan, TrimSpace, Word, ArgsWord;
    NotEmpty(name);
    CleanIsText(c, ctx, braces, out);
    TextScan(braces, out, c.buf, c.bufStart, ctx, i, name);
    ScanConcat(c, ctx, i, name, "(" + (args + ")"));
    start := ParensRead(InText(braces, out, c.buf + name, i), ctx, i + |name|, args, braces, out);
  }

  // ---- braces

  lemma BraceReads(c: Core, ctx: Context, i: nat, p: Piece, braces: seq<Position>, out: seq<Part>)
    returns (start: nat)
    requires Between(c, ctx, braces, out) && (p.OpenPiece? || (p.ClosePiece? && braces != []))
    ensures Scan(c, ctx, i, Shown(p)) ==
            Went(InText(BracesAfter(p, braces, ctx.At(i)), out + [PartOf(p, |braces|, ctx.At(i))], "", start))
  {
    hide Scan, TrimSpace;
    var r := if p.OpenPiece? then '{' else '}';
    assert Shown(p) == [r];
    ScanOne(c, ctx, i, r);
    start := StepChar(c, ctx, i, r).core.bufStart;
  }

  // ---- a line

  lemma TextIsBetween(braces: seq<Position>, out: seq<Part>, start: nat, ctx: Context)
    ensures Between(InText(braces, out, "", start), ctx, braces, out) && Clean(InText(braces, out, "", start))
  {
    BlankIff("");
  }

  lemma PieceReads(c: Core, ctx: Context, i: nat, p: Piece, braces: seq<Position>, out: seq<Part>)
    requires Between(c, ctx, braces, out) && PieceOk(p)
    requires NeedsBreak(p) ==> Clean(c)
    requires p.ClosePiece? ==> braces != []
    ensures var d := Scan(c, ctx, i, Shown(p));
            && d.Went?
            && Between(d.core, ctx, BracesAfter(p, braces, ctx.At(i)), out + [PartOf(p, |braces|, ctx.At(i))])
            && (!p.TextPiece? ==> Clean(d.core))
  {
    hide Scan, Between, Clean, InText, Word, QuotedWord, ArgsWord;
    match p
    case TextPiece(text) =>
      TextReads(c, ctx, i, text, braces, out);
    case QuotedPiece(text) =>
      QuotedReads(c, ctx, i, text, braces, out);
      TextIsBetween(braces, out + [Part(text, QuotedFlag, "", |braces|, ctx.At(i))], i, ctx);
    case RawPiece(text) =>
      var start := RawReads(c, ctx, i, text, braces, out);
      TextIsBetween(braces, out + [Part(text, QuotedFlag, "", |braces|, ctx.At(i))], start, ctx);
    case CallPiece(name, args) =>
      var start := CallReads(c, ctx, i, name, args, braces, out);
      TextIsBetween(braces, out + [Part(name, CallFlag, args, |braces|, ctx.At(i))], start, ctx);
    case ArgsPiece(args) =>
      var start := ArgsRead(c, ctx, i, args, braces, out);
      TextIsBetween(braces, out + [Part("", ArgsFlag, args, |braces|, ctx.At(i))], start, ctx);
    case _ =>
      var start := BraceReads(c, ctx, i, p, braces, out);
      TextIsBetween(BracesAfter(p, braces, ctx.At(i)), out + [PartOf(p, |braces|, ctx.At(i))], start, ctx);
  }

  lemma {:induction false} PiecesRead(c: Core, ctx: Context, i: nat, line: seq<Spaced>, afterText: bool,
                                      braces: seq<Position>, out: seq<Part>)
    requires Between(c, ctx, braces, out) && Readable(line, afterText, |braces|) && (!afterText ==> Clean(c))
    ensures var d := Scan(c, ctx, i, Written(line)); var (parts, open) := PartsOf(line, ctx, i, braces);
            d.Went? && Between(d.core, ctx, open, out + parts)
    decreases |line|
  {
    hide Scan, Between, Clean, PieceOk, Shown, PartOf, BracesAfter, GapOk, NeedsBreak;
    if line == [] {
      ScanEmpty(c, ctx, i);
      assert out + [] == out;
    } else {
      var gap, p, rest := line[0].gap, line[0].piece, Written(line[1..]);
      GapReads(c, ctx, i, gap, braces, out);
      var d, at := Scan(c, ctx, i, gap).core, i + |gap|;
      PieceReads(d, ctx, at, p, braces, out);
      var e := Scan(d, ctx, at, Shown(p)).core;
      var after, part := BracesAfter(p, braces, ctx.At(at)), PartOf(p, |braces|, ctx.At(at));
      PiecesRead(e, ctx, at + |Shown(p)|, line[1..], p.TextPiece?, after, out + [part]);
      ScanConcat(d, ctx, at, Shown(p), rest);
      ScanConcat(c, ctx, i, gap, Shown(p) + rest);
      var (parts, _) := PartsOf(line[1..], ctx, at + |Shown(p)|, after);
      assert (out + [part]) + parts == out + ([part] + parts);
    }
  }

  /** A line of pieces, in the blocks open so far, is read as exactly the parts they stand for. */
  lemma LineReads(line: seq<Spaced>, tail: string, braces: seq<Position>, lineNum: int)
    requires Readable(line, false, |braces|) && GapOk(tail)
    ensures var text := Written(line) + tail;
            var (parts, open) := PartsOf(line, Context(lineNum, HasSpacePrefix(text), text), 0, braces);
            Tokenized(Rest(braces), lineNum, text) == Line(Rest(open), parts)
  {
    hide Scan, ScanTo, Clean, Readable, GapOk, HasSpacePrefix, StepChar, TrimSpace, Written, PartsOf;
    var text := Written(line) + tail;
    var ctx := Context(lineNum, HasSpacePrefix(text), text);
    var c := InText(braces, [], "", 0);
    TextIsBetween(braces, [], 0, ctx);
    PiecesRead(c, ctx, 0, line, false, braces, []);
    var (parts, open) := PartsOf(line, ctx, 0, braces);
    assert [] + parts == parts;
    var d := Scan(c, ctx, 0, Written(line)).core;
    GapReads(d, ctx, |Written(line)|, tail, open, parts);
    ScanConcat(c, ctx, 0, Written(line), tail);
    ScanToIsScan(c, ctx, text, |text|);
    assert text[..|text|] == text;
  }

  // ---------------------------------------------------------------- lines of a text

  /** A line of pieces, with what follows the last of them, or a comment on a line of its own. */
  datatype Row = Row(line: seq<Spaced>, tail: string) | CommentRow(text: string) {
    function Text(): string {
      match this
      case Row(line, tail) => Written(line) + tail
      case CommentRow(text) => text
    }
  }

  function TextsOf(rows: seq<Row>): seq<string> {
    seq(|rows|, i requires 0 <= i < |rows| => rows[i].Text())
  }

  /** The parts of one row, and the blocks then open. */
  function RowParts(row: Row, lineNum: int, braces: seq<Position>): (seq<Part>, seq<Position>) {
    match row
    case Row(line, _) => PartsOf(line, Context(lineNum, HasSpacePrefix(row.Text()), row.Text()), 0, braces)
    case CommentRow(_) => ([], braces)
  }

  function RowsParts(rows: seq<Row>, lineNum: int, braces: seq<Position>): (seq<Part>, seq<Position>) {
    if rows == [] then ([], braces)
    else
      var (first, open) := RowParts(rows[0], lineNum, braces);
      var (rest, last) := RowsParts(rows[1..], lineNum + 1, open);
      (first + rest, last)
  }

  predicate RowOk(row: Row, depth: nat) {
    match row
    case Row(line, tail) => Readable(line, false, depth) && GapOk(tail) && !("#" <= TrimSpace(row.Text()))
    case CommentRow(text) => "#" <= TrimSpace(text) && !("#*" <= TrimSpace(text))
  }

  predicate RowsOk(rows: seq<Row>, lineNum: int, braces: seq<Position>) {
    rows == [] ||
    (RowOk(rows[0], |braces|) && RowsOk(rows[1..], lineNum + 1, RowParts(rows[0], lineNum, braces).1))
  }

  /** A text of such lines gives the parts of all of them, if no block is left open at its end. */
  lemma {:induction false} RowsRead(rows: seq<Row>, lineNum: int, braces: seq<Position>)
    requires RowsOk(rows, lineNum, braces)
    ensures var (parts, open) := RowsParts(rows, lineNum, braces);
            TokenizedLines(Rest(braces), false, lineNum, TextsOf(rows)) ==
            if open == [] then Line(NOTHING, parts) else Refused(UnclosedBlock(open[|open| - 1]))
    decreases |rows|
  {
    hide Tokenized, Readable, GapOk, RowParts, TrimSpace;
    if rows != [] {
      var texts := TextsOf(rows);
      assert texts[1..] == TextsOf(rows[1..]);
      var (first, open) := RowParts(rows[0], lineNum, braces);
      RowsRead(rows[1..], lineNum + 1, open);
      RowReads(rows[0], lineNum, braces);
      assert !SkipsAfter(false, texts[0]);
    }
  }

  lemma RowReads(row: Row, lineNum: int, braces: seq<Position>)
    requires RowOk(row, |braces|)
    ensures var (parts, open) := RowParts(row, lineNum, braces);
            if CommentLine(false, row.Text()) then row.CommentRow? && parts == [] && open == braces
            else row.Row? && Tokenized(Rest(braces), lineNum, row.Text()) == Line(Rest(open), parts)
    ensures !SkipsAfter(false, row.Text())
  {
    hide Tokenized, Readable, GapOk, PartsOf, Written, TrimSpace, HasSpacePrefix;
    if row.Row? {
      LineReads(row.line, row.tail, braces, lineNum);
      StarIsComment(row.Text());
    } else {
      BlankIsNoComment(row.Text());
    }
  }

  lemma StarIsComment(text: string)
    ensures "#*" <= TrimSpace(text) ==> "#" <= TrimSpace(text)
  {
    hide TrimSpace;
    assert "#*"[0] == '#';
  }

  lemma BlankIsNoComment(text: string)
    ensures "#" <= TrimSpace(text) ==> TrimSpace(text) != ""
  {
    hide TrimSpace;
  }

  // ---------------------------------------------------------------- parts written again

  /** The same part, wherever it stands. */
  predicate SamePart(a: Part, b: Part) {
    a.flag == b.flag && a.value == b.value && a.args == b.args && a.depth == b.depth
  }

  predicate SameParts(a: seq<Part>, b: seq<Part>) {
    |a| == |b| && forall i :: 0 <= i < |a| ==> SamePart(a[i], b[i])
  }

  /** How a part is written. */
  function PieceOf(part: Part): Piece {
    match part.flag
    case TextFlag => TextPiece(part.value)
    case QuotedFlag => if '`' !in part.value then RawPiece(part.value) else QuotedPiece(part.value)
    case CallFlag => CallPiece(part.value, part.args)
    case ArgsFlag => ArgsPiece(part.args)
    case BracketFlag => if part.value == "{" then OpenPiece else ClosePiece
  }

  /** Parts on one line, a ';' in front of each. */
  function OneLine(parts: seq<Part>): seq<Spaced> {
    if parts == [] then [] else [Spaced(";", PieceOf(parts[0]))] + OneLine(parts[1..])
  }

  lemma PieceFits(part: Part, n: nat, position: Position)
    requires PartOk(part) && NestAfter(part, n).Some?
    ensures PieceOk(PieceOf(part)) && SamePart(PartOf(PieceOf(part), n, position), part)
    ensures PieceOf(part).ClosePiece? ==> n > 0
    ensures NestAfter(part, n) == Some(DepthAfter(PieceOf(part), n))
  {
    hide Word, ArgsWord, QuotedWord;
  }

  lemma NestFirst(parts: seq<Part>, n: nat)
    requires parts != [] && Nest(parts, n).Some?
    ensures NestAfter(parts[0], n).Some?
    ensures Nest(parts, n) == Nest(parts[1..], NestAfter(parts[0], n).value)
  {
    hide NestAfter;
    NestPrefix(parts, 1, n);
    NestNothing(n);
    NestNext([], parts[0], n);
    assert [] + [parts[0]] == parts[..1];
    NestConcat(parts[..1], parts[1..], n);
    assert parts[..1] + parts[1..] == parts;
  }

  lemma {:induction false} NestPrefix(parts: seq<Part>, k: nat, n: nat)
    requires k <= |parts| && Nest(parts, n).Some?
    ensures Nest(parts[..k], n).Some?
    decreases |parts|
  {
    if k < |parts| {
      NestPrefix(parts[..|parts| - 1], k, n);
      assert parts[..|parts| - 1][..k] == parts[..k];
    } else {
      assert parts[..k] == parts;
    }
  }

  lemma {:induction false} OneLineFits(parts: seq<Part>, afterText: bool, ctx: Context, start: nat,
                                       braces: seq<Position>)
    requires (forall i :: 0 <= i < |parts| ==> PartOk(parts[i])) && Nest(parts, |braces|).Some?
    ensures Readable(OneLine(parts), afterText, |braces|)
    ensures var (read, open) := PartsOf(OneLine(parts), ctx, start, braces);
            SameParts(read, parts) && |open| == Nest(parts, |braces|).value
    decreases |parts|
  {
    hide PartOk, PieceOk, Nest, NestAfter, PieceOf, PartOf, DepthAfter, NeedsBreak, SamePart, Shown, BracesAfter;
    if parts == [] {
      NestNothing(|braces|);
    } else {
      var p, at := PieceOf(parts[0]), start + 1;
      NestFirst(parts, |braces|);
      PieceFits(parts[0], |braces|, ctx.At(at));
      OneLineFits(parts[1..], p.TextPiece?, ctx, at + |Shown(p)|, BracesAfter(p, braces, ctx.At(at)));
      assert OneLine(parts)[1..] == OneLine(parts[1..]);
      assert GapOk(";") && ';' in ";";
      hide GapOk;
    }
  }

  /** The parts of any accepted text, written on one line, are read as the same parts: the same
      flags, values, arguments and nesting. */
  lemma WrittenAgain(lineNum: int, lines: seq<string>, lineNum': int)
    requires TokenizedLines(NOTHING, false, lineNum, lines).Line?
    ensures var parts := TokenizedLines(NOTHING, false, lineNum, lines).parts;
            var again := TokenizedLines(NOTHING, false, lineNum', [Written(OneLine(parts))]);
            again.Line? && again.pending == NOTHING && SameParts(again.parts, parts)
  {
    hide Tokenized, TokenizedLines, PartOk, Nest, OneLine, PartsOf, Readable, Written, SameParts, TrimSpace;
    hide HasSpacePrefix;
    var parts := TokenizedLines(NOTHING, false, lineNum, lines).parts;
    StartIsOk();
    forall i | 0 <= i < |parts| ensures PartOk(parts[i]) {
      TextOk(NOTHING, false, lineNum, lines, i);
    }
    BracesBalance(NOTHING, false, lineNum, lines);
    var row := Row(OneLine(parts), "");
    assert row.Text() == Written(OneLine(parts)) + "" == Written(OneLine(parts));
    OneLineFits(parts, false, Context(lineNum', HasSpacePrefix(row.Text()), row.Text()), 0, []);
    OneLineIsNoComment(parts);
    OneRowReads(row, lineNum');
  }

  lemma StartIsOk()
    ensures PendingOk(NOTHING) && HeldOk(NOTHING) && NOTHING == Rest([])
  {
  }

  lemma OneRowReads(row: Row, lineNum: int)
    requires RowOk(row, 0) && RowParts(row, lineNum, []).1 == []
    ensures TokenizedLines(NOTHING, false, lineNum, [row.Text()]) == Line(NOTHING, RowParts(row, lineNum, []).0)
  {
    hide TokenizedLines, RowOk, RowParts;
    RowsRead([row], lineNum, []);
    assert TextsOf([row]) == [row.Text()];
  }

  lemma OneLineIsNoComment(parts: seq<Part>)
    ensures !("#" <= TrimSpace(Written(OneLine(parts))))
  {
    if parts == [] {
      BlankIff("");
    } else {
      SemicolonFirst(Written(OneLine(parts)));
    }
  }

  lemma SemicolonFirst(text: string)
    requires text != "" && text[0] == ';'
    ensures !("#" <= TrimSpace(text))
  {
    assert TrimLeft(text, IsSpace) == text;
    TrimRightPart(text, IsSpace);
  }
}
