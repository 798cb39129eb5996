/** The tokenizer itself: its state from line to line, and the loop over a line's characters. */
module Tokenizers {
  import opened Common
  import opened TokenSteps
  import opened TokenParts
  import opened CommentLines

  datatype Result = Parts(parts: seq<Part>) | Error(error: TokenError)

  class Tokenizer {
    var rawPart: Option<Part>
    var raw: string
    var parenStack: seq<Position>
    var braceStack: seq<Position>
    var args: string
    var paddingParts: seq<Part>

    function View(): Pending
      reads this
    {
      Pending(rawPart, raw, parenStack, braceStack, args, paddingParts)
    }

    constructor ()
      ensures View() == NOTHING
    {
      rawPart, raw, parenStack, braceStack, args, paddingParts := None, "", [], [], "", [];
    }

    /** One line.  What is refused says nothing about the state it leaves behind. */
    method Tokenize(lineNum: int, line: string) returns (result: Result)
      modifies this
      ensures match Tokenized(old(View()), lineNum, line)
              case Refused(e) => result == Error(e)
              case Line(pending, parts) => result == Parts(parts) && View() == pending
    {
      hide ScanTo, StepChar, IsValidContinuation, HasSpacePrefix, BeginLine, LineText, TrimSpace;
      if |parenStack| > 0 && !IsValidContinuation(line) {
        return Error(UnterminatedParens(parenStack[|parenStack| - 1]));
      }
      var indented := HasSpacePrefix(line);
      var text := Begin(line);
      var ctx := Context(lineNum, indented, text);
      ghost var start := Core(View(), [], "", false, false, 0);

      var parts: seq<Part> := [];
      var buf, inQuote, escaped, bufStart := "", false, false, 0;
      var i: nat := 0;
      ScanNone(start, ctx, text);
      while i < |text|
        invariant i <= |text|
        invariant ScanTo(start, ctx, text, i) == Went(Core(View(), parts, buf, inQuote, escaped, bufStart))
      {
        ScanNext(start, ctx, text, i);
        var failure: Option<TokenError>;
        parts, buf, inQuote, escaped, bufStart, failure :=
          Step(ctx, i, text[i], parts, buf, inQuote, escaped, bufStart);
        if failure.Some? {
          ScanFails(start, ctx, text, i + 1);
          return Error(failure.value);
        }
        i := i + 1;
      }
      if inQuote {
        return Error(UnterminatedQuote(text));
      }
      parts, buf := FlushText(ctx, parts, buf, bufStart);
      result := Parts(parts);
    }

    /** The line's text, after an open call has taken its comma and a raw string its line end. */
    method Begin(line: string) returns (text: string)
      modifies `args, `raw
      ensures View() == BeginLine(old(View()), line) && text == LineText(old(View()), line)
    {
      hide NeedsAutoComma, TrimLeft;
      text := line;
      if |parenStack| > 0 {
        if NeedsAutoComma(args, line) {
          args := args + ",";
        }
        text := TrimLeft(line, IsBlank);
      }
      if rawPart.Some? && |raw| > 0 {
        raw := raw + "\n";
      }
    }

    /** The text in the buffer becomes a part, unless it is blank. */
    method FlushText(ctx: Context, parts: seq<Part>, buf: string, bufStart: nat)
      returns (parts': seq<Part>, buf': string)
      ensures buf' == ""
      ensures parts' == if TrimSpace(buf) == "" then parts
              else parts + [Part(TrimSpace(buf), TextFlag, "", |braceStack|, ctx.At(bufStart))]
    {
      parts', buf' := parts, "";
      var value := TrimSpace(buf);
      if value != "" {
        parts' := parts + [Part(value, TextFlag, "", |braceStack|, ctx.At(bufStart))];
      }
    }

    /** A character goes to the arguments of an open call, or to the buffer. */
    method WriteRune(buf: string, r: char) returns (buf': string)
      modifies `args
      ensures args == if parenStack != [] then old(args) + [r] else old(args)
      ensures buf' == if parenStack != [] then buf else buf + [r]
    {
      buf' := buf;
      if |parenStack| > 0 {
        args := args + [r];
      } else {
        buf' := buf + [r];
      }
    }

    method Quote(ctx: Context, parts0: seq<Part>, buf0: string, inQuote0: bool, escaped: bool, bufStart: nat)
      returns (parts: seq<Part>, buf: string, inQuote: bool)
      modifies `args
      ensures StepQuote(Core(old(View()), parts0, buf0, inQuote0, escaped, bufStart), ctx)
              == Core(View(), parts, buf, inQuote, escaped, bufStart)
    {
      hide TrimSpace;
      parts, buf, inQuote := parts0, buf0, inQuote0;
      if |parenStack| > 0 {
        inQuote := !inQuote;
        buf := WriteRune(buf, '"');
      } else if inQuote {
        inQuote := false;
        parts := parts + [Part(Inner(buf + ['"']), QuotedFlag, "", |braceStack|, ctx.At(bufStart))];
        buf := "";
      } else {
        parts, buf := FlushText(ctx, parts, buf, bufStart);
        buf := "\"";
        inQuote := true;
      }
    }

    method Backquote(ctx: Context, i: nat, parts0: seq<Part>, buf0: string, inQuote: bool, escaped: bool, bufStart: nat)
      returns (parts: seq<Part>, buf: string)
      modifies `args, `raw, `rawPart
      ensures StepBackquote(Core(old(View()), parts0, buf0, inQuote, escaped, bufStart), ctx, i)
              == Core(View(), parts, buf, inQuote, escaped, bufStart)
    {
      hide TrimSpace;
      parts, buf := parts0, buf0;
      if inQuote || |parenStack| > 0 {
        buf := WriteRune(buf, '`');
      } else {
        parts, buf := FlushText(ctx, parts, buf, bufStart);
        raw := raw + "`";
        rawPart := Some(Part("", QuotedFlag, "", |braceStack|, ctx.At(i)));
      }
    }

    method OpenParen(ctx: Context, i: nat, parts: seq<Part>, buf0: string, inQuote: bool, escaped: bool, bufStart: nat)
      returns (buf: string)
      modifies `args, `parenStack, `paddingParts
      ensures StepOpen(Core(old(View()), parts, buf0, inQuote, escaped, bufStart), ctx, i)
              == Core(View(), parts, buf, inQuote, escaped, bufStart)
    {
      hide TrimSpace;
      buf := buf0;
      if inQuote {
        buf := WriteRune(buf, '(');
        return;
      }
      if |parenStack| > 0 {
        args := args + "(";
      } else {
        var v := TrimSpace(buf);
        if v != "" {
          paddingParts := paddingParts + [Part(v, CallFlag, "", |braceStack|, ctx.At(bufStart))];
        }
        buf := "";
      }
      parenStack := parenStack + [ctx.At(i)];
    }

    method Brace(ctx: Context, i: nat, r: char, parts0: seq<Part>, buf0: string, inQuote: bool, escaped: bool,
                 bufStart: nat)
      returns (parts: seq<Part>, buf: string, failure: Option<TokenError>)
      modifies `args, `braceStack
      ensures StepBrace(Core(old(View()), parts0, buf0, inQuote, escaped, bufStart), ctx, i, r)
           == if failure.Some? then Failed(failure.value)
              else Went(Core(View(), parts, buf, inQuote, escaped, bufStart))
    {
      hide TrimSpace;
      parts, buf, failure := parts0, buf0, None;
      if inQuote {
        buf := WriteRune(buf, r);
      } else if |parenStack| > 0 {
        failure := Some(BraceInParens(ctx.line));
      } else {
        parts, buf := FlushText(ctx, parts, buf, bufStart);
        var pos := ctx.At(i);
        var depth := |braceStack|;
        if r == '{' {
          braceStack := braceStack + [pos];
          depth := |braceStack|;
        } else if |braceStack| == 0 {
          failure := Some(UnexpectedBrace(ctx.line));
          return;
        } else {
          braceStack := braceStack[..|braceStack| - 1];
        }
        parts := parts + [Part([r], BracketFlag, "", depth, pos)];
      }
    }

    /** One character. */
    method Step(ctx: Context, i: nat, r: char, parts0: seq<Part>, buf0: string, inQuote0: bool, escaped0: bool,
                bufStart0: nat)
      returns (parts: seq<Part>, buf: string, inQuote: bool, escaped: bool, bufStart: nat, failure: Option<TokenError>)
      modifies this
      ensures StepChar(Core(old(View()), parts0, buf0, inQuote0, escaped0, bufStart0), ctx, i, r)
           == if failure.Some? then Failed(failure.value)
              else Went(Core(View(), parts, buf, inQuote, escaped, bufStart))
    {
      hide TrimSpace, StepOutside;
      parts, buf, inQuote, escaped, bufStart, failure := parts0, buf0, inQuote0, escaped0, bufStart0, None;
      if rawPart.Some? {
        raw := raw + [r];
        if r == '`' {
          parts := parts + [rawPart.value.(value := Inner(raw))];
          raw := "";
          rawPart := None;
        }
        return;
      }
      if |parenStack| == 0 && TrimSpace(buf) == "" {
        bufStart := i;
      }
      parts, buf, inQuote, escaped, failure := Dispatch(ctx, i, r, parts, buf, inQuote, escaped, bufStart);
    }

    /** A character outside a raw string. */
    method Dispatch(ctx: Context, i: nat, r: char, parts0: seq<Part>, buf0: string, inQuote0: bool, escaped0: bool,
                    bufStart: nat)
      returns (parts: seq<Part>, buf: string, inQuote: bool, escaped: bool, failure: Option<TokenError>)
      modifies this
      ensures StepOutside(Core(old(View()), parts0, buf0, inQuote0, escaped0, bufStart), ctx, i, r)
           == if failure.Some? then Failed(failure.value)
              else Went(Core(View(), parts, buf, inQuote, escaped, bufStart))
    {
      hide TrimSpace, StepQuote, StepBackquote, StepOpen, StepBrace;
      parts, buf, inQuote, escaped, failure := parts0, buf0, inQuote0, escaped0, None;
      if inQuote && escaped {
        buf := WriteRune(buf, r);
        escaped := false;
      } else if r == '\\' {
        if inQuote {
          escaped := true;
        }
        buf := WriteRune(buf, r);
      } else if r == '"' {
        parts, buf, inQuote := Quote(ctx, parts, buf, inQuote, escaped, bufStart);
      } else if r == '`' {
        parts, buf := Backquote(ctx, i, parts, buf, inQuote, escaped, bufStart);
      } else if r == '(' {
        buf := OpenParen(ctx, i, parts, buf, inQuote, escaped, bufStart);
      } else if r == ')' {
        if inQuote {
          buf := WriteRune(buf, r);
        } else if |parenStack| == 0 {
          failure := Some(UnexpectedParen(ctx.line));
        } else {
          parts := CloseParen(parts);
        }
      } else if r == '{' || r == '}' {
        parts, buf, failure := Brace(ctx, i, r, parts, buf, inQuote, escaped, bufStart);
      } else if r == ';' && !inQuote && |parenStack| == 0 {
        parts, buf := FlushText(ctx, parts, buf, bufStart);
      } else {
        buf := WriteRune(buf, r);
      }
    }

    /** The innermost open parenthesis is closed; with the outermost the part is complete. */
    method CloseParen(parts: seq<Part>) returns (parts': seq<Part>)
      requires parenStack != []
      modifies `parenStack, `args, `paddingParts
      ensures forall ctx, buf, escaped, bufStart ::
        StepClose(Core(old(View()), parts, buf, false, escaped, bufStart), ctx)
          == Went(Core(View(), parts', buf, false, escaped, bufStart))
    {
      var n := |parenStack| - 1;
      var pos := parenStack[n];
      parts' := parts;
      parenStack := parenStack[..n];
      if |parenStack| == 0 {
        var argsValue := args;
        args := "";
        var k := |paddingParts|;
        if k > 0 {
          paddingParts := paddingParts[k - 1 := paddingParts[k - 1].(args := argsValue)];
          parts' := parts' + paddingParts;
          paddingParts := [];
        } else {
          parts' := parts' + [Part("", ArgsFlag, argsValue, |braceStack|, pos)];
        }
      } else {
        args := args + ")";
      }
    }

    /** The end of the text. */
    method Close() returns (error: Option<TokenError>)
      ensures error == Closing(View())
    {
      if rawPart.Some? {
        return Some(UnterminatedRaw(rawPart.value.position));
      }
      if |parenStack| > 0 {
        return Some(UnterminatedParens(parenStack[|parenStack| - 1]));
      }
      if |braceStack| > 0 {
        return Some(UnclosedBlock(braceStack[|braceStack| - 1]));
      }
      return None;
    }
  }

  lemma ScanNone(c: Core, ctx: Context, line: string)
    ensures ScanTo(c, ctx, line, 0) == Went(c)
  {
  }

  lemma {:induction false} ScanFails(c: Core, ctx: Context, line: string, n: nat)
    requires n <= |line| && ScanTo(c, ctx, line, n).Failed?
    ensures ScanTo(c, ctx, line, |line|) == ScanTo(c, ctx, line, n)
    decreases |line| - n
  {
    hide StepChar;
    if n < |line| {
      ScanFails(c, ctx, line, n + 1);
    }
  }

  /** All lines of a text and its end, as the compiler reads them: comments are skipped. */
  method TokenizeText(lines: seq<string>) returns (result: Result)
    ensures match TokenizedLines(NOTHING, false, 1, lines)
            case Refused(e) => result == Error(e)
            case Line(_, parts) => result == Parts(parts)
    ensures result.Parts? ==> Nest(result.parts, 0) == Some(0)
    ensures result.Parts? ==> forall k :: 0 <= k < |result.parts| ==> PartOk(result.parts[k])
  {
    hide Tokenized, TokenizedLines, Closing, PartOk, Nest, CommentLine, SkipsAfter;
    var t := new Tokenizer();
    var comments := new Detector();
    var parts: seq<Part> := [];
    var i: nat := 0;
    while i < |lines|
      invariant i <= |lines|
      invariant TokenizedLines(NOTHING, false, 1, lines)
             == Preceded(parts, TokenizedLines(t.View(), comments.skippingBlock, 1 + i, lines[i..]))
    {
      LinesNext(t.View(), comments.skippingBlock, 1 + i, lines[i..]);
      assert lines[i..][1..] == lines[i + 1..];
      var comment := comments.IsComment(lines[i]);
      if !comment {
        var line := t.Tokenize(i + 1, lines[i]);
        if line.Error? {
          return line;
        }
        parts := parts + line.parts;
      }
      i := i + 1;
    }
    LinesNone(t.View(), comments.skippingBlock, 1 + i);
    assert lines[i..] == [];
    var error := t.Close();
    if error.Some? {
      return Error(error.value);
    }
    StartHeld();
    BracesBalance(NOTHING, false, 1, lines);
    forall k | 0 <= k < |parts| ensures PartOk(parts[k]) {
      TextOk(NOTHING, false, 1, lines, k);
    }
    result := Parts(parts);
  }

  function Preceded(parts: seq<Part>, result: LineResult): LineResult {
    match result
    case Refused(e) => Refused(e)
    case Line(p, rest) => Line(p, parts + rest)
  }

  lemma LinesNext(p: Pending, skipping: bool, lineNum: int, lines: seq<string>)
    requires lines != []
    ensures var after := SkipsAfter(skipping, lines[0]);
            TokenizedLines(p, skipping, lineNum, lines) ==
            if CommentLine(skipping, lines[0]) then TokenizedLines(p, after, lineNum + 1, lines[1..])
            else match Tokenized(p, lineNum, lines[0])
                 case Refused(e) => Refused(e)
                 case Line(q, parts) => Preceded(parts, TokenizedLines(q, after, lineNum + 1, lines[1..]))
  {
    hide Tokenized, Closing, CommentLine, SkipsAfter;
  }

  lemma LinesNone(p: Pending, skipping: bool, lineNum: int)
    ensures TokenizedLines(p, skipping, lineNum, [])
         == if Closing(p).Some? then Refused(Closing(p).value) else Line(p, [])
  {
    hide Closing;
  }

  lemma StartHeld()
    ensures HeldOk(NOTHING) && PendingOk(NOTHING)
  {
  }
}
