/**
 What the tokenizer does with one character, one line and a text, as functions on its state.
 A character stands for a rune; positions count the bytes of the line before it in UTF-8.
 */
module TokenSteps {
  import opened Common

  datatype Flag = TextFlag | BracketFlag | QuotedFlag | ArgsFlag | CallFlag

  datatype Position = Position(line: int, index: nat, indented: bool)

  datatype Part = Part(value: string, flag: Flag, args: string, depth: nat, position: Position)

  datatype TokenError = UnterminatedParens(position: Position) | UnterminatedRaw(position: Position)
                      | UnclosedBlock(position: Position) | UnexpectedParen(line: string) | BraceInParens(line: string)
                      | UnexpectedBrace(line: string) | UnterminatedQuote(line: string)

  /** What is kept from line to line. */
  datatype Pending = Pending(rawPart: Option<Part>, raw: string, parens: seq<Position>, braces: seq<Position>,
                             args: string, padding: seq<Part>)

  const NOTHING := Pending(None, "", [], [], "", [])

  /** That and what is kept within a line. */
  datatype Core = Core(p: Pending, parts: seq<Part>, buf: string, inQuote: bool, escaped: bool, bufStart: nat)

  datatype Stepped = Went(core: Core) | Failed(error: TokenError)

  datatype Context = Context(lineNum: int, indented: bool, line: string) {
    /** The position of character number `i`. */
    function At(i: nat): Position {
      Position(lineNum, ByteIndex(line, i), indented)
    }
  }

  /** The number of bytes a character takes. */
  function Utf8Length(c: char): nat {
    if c < '\U{80}' then 1 else if c < '\U{800}' then 2 else if c < '\U{10000}' then 3 else 4
  }

  /** The byte at which character number `i` of `line` starts. */
  function ByteIndex(line: string, i: nat): nat {
    if i == 0 || line == "" then 0 else Utf8Length(line[0]) + ByteIndex(line[1..], i - 1)
  }

  // ---------------------------------------------------------------- strings

  predicate IsSpace(c: char) {
    c in {' ', '\t', '\n', '\U{0B}', '\U{0C}', '\r', '\U{85}', '\U{A0}', '\U{1680}', '\U{2028}', '\U{2029}', '\U{202F}',
      '\U{205F}', '\U{3000}'}
    || '\U{2000}' <= c <= '\U{200A}'
  }

  predicate IsBlank(c: char) {
    c == ' ' || c == '\t'
  }

  function TrimLeft(s: string, drop: char -> bool): string {
    if s != "" && drop(s[0]) then TrimLeft(s[1..], drop) else s
  }

  function TrimRight(s: string, drop: char -> bool): string {
    if s != "" && drop(s[|s| - 1]) then TrimRight(s[..|s| - 1], drop) else s
  }

  function TrimSpace(s: string): string {
    TrimRight(TrimLeft(s, IsSpace), IsSpace)
  }

  /** The text between the first and the last character. */
  function Inner(s: string): string {
    if |s| >= 2 then s[1..|s| - 1] else ""
  }

  predicate HasSpacePrefix(line: string) {
    "  " <= line || "\t" <= line
  }

  predicate IsValidContinuation(line: string) {
    var trimmed := TrimSpace(line);
    trimmed == "" || trimmed == ")" || "\"" <= trimmed || "`" <= trimmed
  }

  predicate NeedsAutoComma(existing: string, line: string) {
    var trimmedLine := TrimSpace(line);
    if !("\"" <= trimmedLine) && !("`" <= trimmedLine) then false
    else
      var trimmed := TrimRight(existing, IsBlank);
      trimmed != "" && trimmed[|trimmed| - 1] != ','
  }

  // ---------------------------------------------------------------- one character

  function Write(c: Core, r: char): Core {
    if c.p.parens != [] then c.(p := c.p.(args := c.p.args + [r])) else c.(buf := c.buf + [r])
  }

  function Flushed(c: Core, ctx: Context): Core {
    var value := TrimSpace(c.buf);
    if value == "" then c.(buf := "")
    else c.(buf := "", parts := c.parts + [Part(value, TextFlag, "", |c.p.braces|, ctx.At(c.bufStart))])
  }

  function StepRaw(c: Core, part: Part, r: char): Core {
    var raw := c.p.raw + [r];
    if r == '`' then c.(p := c.p.(raw := "", rawPart := None), parts := c.parts + [part.(value := Inner(raw))])
    else c.(p := c.p.(raw := raw))
  }

  function StepQuote(c: Core, ctx: Context): Core {
    if c.p.parens != [] then Write(c, '"').(inQuote := !c.inQuote)
    else if c.inQuote then
      c.(parts := c.parts + [Part(Inner(c.buf + ['"']), QuotedFlag, "", |c.p.braces|, ctx.At(c.bufStart))],
         buf := "", inQuote := false)
    else Flushed(c, ctx).(buf := "\"", inQuote := true)
  }

  function StepBackquote(c: Core, ctx: Context, i: nat): Core {
    if c.inQuote || c.p.parens != [] then Write(c, '`')
    else
      var d := Flushed(c, ctx);
      d.(p := d.p.(raw := d.p.raw + "`", rawPart := Some(Part("", QuotedFlag, "", |d.p.braces|, ctx.At(i)))))
  }

  function StepOpen(c: Core, ctx: Context, i: nat): Core {
    if c.inQuote then Write(c, '(')
    else if c.p.parens != [] then c.(p := c.p.(args := c.p.args + "(", parens := c.p.parens + [ctx.At(i)]))
    else
      var v := TrimSpace(c.buf);
      var padding := if v == "" then c.p.padding
                     else c.p.padding + [Part(v, CallFlag, "", |c.p.braces|, ctx.At(c.bufStart))];
      c.(buf := "", p := c.p.(padding := padding, parens := c.p.parens + [ctx.At(i)]))
  }

  function StepClose(c: Core, ctx: Context): Stepped {
    if c.inQuote then Went(Write(c, ')'))
    else if c.p.parens == [] then Failed(UnexpectedParen(ctx.line))
    else
      var n := |c.p.parens| - 1;
      var parens := c.p.parens[..n];
      if parens != [] then Went(c.(p := c.p.(parens := parens, args := c.p.args + ")")))
      else
        var k := |c.p.padding|;
        var ended :=
          if k > 0 then c.p.padding[k - 1 := c.p.padding[k - 1].(args := c.p.args)]
          else [Part("", ArgsFlag, c.p.args, |c.p.braces|, c.p.parens[n])];
        Went(c.(p := c.p.(parens := [], args := "", padding := []), parts := c.parts + ended))
  }

  function StepBrace(c: Core, ctx: Context, i: nat, r: char): Stepped {
    if c.inQuote then Went(Write(c, r))
    else if c.p.parens != [] then Failed(BraceInParens(ctx.line))
    else
      var d := Flushed(c, ctx);
      var n := |d.p.braces|;
      if r == '{' then
        Went(d.(p := d.p.(braces := d.p.braces + [ctx.At(i)]),
                parts := d.parts + [Part([r], BracketFlag, "", n + 1, ctx.At(i))]))
      else if n == 0 then Failed(UnexpectedBrace(ctx.line))
      else Went(d.(p := d.p.(braces := d.p.braces[..n - 1]),
                   parts := d.parts + [Part([r], BracketFlag, "", n, ctx.At(i))]))
  }

  function StepChar(c: Core, ctx: Context, i: nat, r: char): Stepped {
    if c.p.rawPart.Some? then Went(StepRaw(c, c.p.rawPart.value, r))
    else StepOutside(if c.p.parens == [] && TrimSpace(c.buf) == "" then c.(bufStart := i) else c, ctx, i, r)
  }

  /** A character outside a raw string. */
  function StepOutside(c: Core, ctx: Context, i: nat, r: char): Stepped {
    if c.inQuote && c.escaped then Went(Write(c, r).(escaped := false))
    else if r == '\\' then Went(Write(c, r).(escaped := c.escaped || c.inQuote))
    else if r == '"' then Went(StepQuote(c, ctx))
    else if r == '`' then Went(StepBackquote(c, ctx, i))
    else if r == '(' then Went(StepOpen(c, ctx, i))
    else if r == ')' then StepClose(c, ctx)
    else if r == '{' || r == '}' then StepBrace(c, ctx, i, r)
    else if r == ';' then Went(if c.inQuote || c.p.parens != [] then Write(c, r) else Flushed(c, ctx))
    else Went(Write(c, r))
  }

  // ---------------------------------------------------------------- one line

  /** The state after the first `n` characters of `line`. */
  function ScanTo(c: Core, ctx: Context, line: string, n: nat): Stepped
    requires n <= |line|
  {
    if n == 0 then Went(c)
    else
      match ScanTo(c, ctx, line, n - 1)
      case Failed(e) => Failed(e)
      case Went(d) => StepChar(d, ctx, n - 1, line[n - 1])
  }

  datatype LineResult = Line(pending: Pending, parts: seq<Part>) | Refused(error: TokenError)

  /** A line begins: an open call takes a comma where one is missing, a raw string its line end. */
  function BeginLine(p: Pending, line: string): Pending {
    var q := if p.parens != [] && NeedsAutoComma(p.args, line) then p.(args := p.args + ",") else p;
    if q.rawPart.Some? && q.raw != "" then q.(raw := q.raw + "\n") else q
  }

  /** The text scanned in a line: within an open call its leading blanks do not count. */
  function LineText(p: Pending, line: string): string {
    if p.parens != [] then TrimLeft(line, IsBlank) else line
  }

  function Tokenized(p: Pending, lineNum: int, line: string): LineResult {
    if p.parens != [] && !IsValidContinuation(line) then Refused(UnterminatedParens(p.parens[|p.parens| - 1]))
    else
      var text := LineText(p, line);
      var ctx := Context(lineNum, HasSpacePrefix(line), text);
      match ScanTo(Core(BeginLine(p, line), [], "", false, false, 0), ctx, text, |text|)
      case Failed(e) => Refused(e)
      case Went(c) =>
        if c.inQuote then Refused(UnterminatedQuote(text))
        else Line(c.p, Flushed(c, ctx).parts)
  }

  /** What is still open at the end of a text. */
  function Closing(p: Pending): Option<TokenError> {
    if p.rawPart.Some? then Some(UnterminatedRaw(p.rawPart.value.position))
    else if p.parens != [] then Some(UnterminatedParens(p.parens[|p.parens| - 1]))
    else if p.braces != [] then Some(UnclosedBlock(p.braces[|p.braces| - 1]))
    else None
  }

  // ---------------------------------------------------------------- comments

  /** Line `line` is a comment, within a comment block (`skipping`) or not. */
  predicate CommentLine(skipping: bool, line: string) {
    TrimSpace(line) != "" && (skipping || "#" <= TrimSpace(line))
  }

  /** A comment block starts with "#*" and ends with a blank line. */
  predicate SkipsAfter(skipping: bool, line: string) {
    TrimSpace(line) != "" && (skipping || "#*" <= TrimSpace(line))
  }

  // ---------------------------------------------------------------- a text

  /** A text of several lines, numbered from `lineNum`, closed at its end; comments are left out. */
  function TokenizedLines(p: Pending, skipping: bool, lineNum: int, lines: seq<string>): LineResult
    decreases |lines|
  {
    if lines == [] then if Closing(p).Some? then Refused(Closing(p).value) else Line(p, [])
    else
      var after := SkipsAfter(skipping, lines[0]);
      if CommentLine(skipping, lines[0]) then TokenizedLines(p, after, lineNum + 1, lines[1..])
      else
        match Tokenized(p, lineNum, lines[0])
        case Refused(e) => Refused(e)
        case Line(q, parts) =>
          match TokenizedLines(q, after, lineNum + 1, lines[1..])
          case Refused(e) => Refused(e)
          case Line(last, rest) => Line(last, parts + rest)
  }
}
