/** Which lines of a text are comments. */
module CommentLines {
  import opened TokenSteps

  class Detector {
    var skippingBlock: bool

    constructor ()
      ensures !skippingBlock
    {
      skippingBlock := false;
    }

    method IsComment(line: string) returns (comment: bool)
      modifies this
      ensures comment == CommentLine(old(skippingBlock), line)
      ensures skippingBlock == SkipsAfter(old(skippingBlock), line)
    {
      hide TrimSpace;
      var trimmed := TrimSpace(line);
      if trimmed == "" {
        skippingBlock := false;
        return false;
      }
      if skippingBlock {
        return true;
      }
      if "#*" <= trimmed {
        skippingBlock := true;
        assert trimmed[0] == "#*"[0];
        return true;
      }
      return "#" <= trimmed;
    }
  }

  /** A fresh detector skips a block after the first `k` lines. */
  function SkippingAt(lines: seq<string>, k: nat): bool
    requires k <= |lines|
  {
    k > 0 && SkipsAfter(SkippingAt(lines, k - 1), lines[k - 1])
  }

  predicate IsBlankLine(line: string) {
    TrimSpace(line) == ""
  }

  /** Line `j` opens a comment block that reaches line `k`: no line from `j` to `k` is blank. */
  predicate BlockReaches(lines: seq<string>, j: int, k: int) {
    0 <= j <= k < |lines| && "#*" <= TrimSpace(lines[j]) && forall i :: j <= i <= k ==> !IsBlankLine(lines[i])
  }

  lemma BlockGoesOn(lines: seq<string>, j: int, k: int)
    requires 0 <= k < |lines| - 1 && j <= k
    ensures BlockReaches(lines, j, k + 1) <==> BlockReaches(lines, j, k) && !IsBlankLine(lines[k + 1])
  {
  }

  lemma {:induction false} SkippingIff(lines: seq<string>, k: nat)
    requires k < |lines|
    ensures SkippingAt(lines, k + 1) <==> exists j :: BlockReaches(lines, j, k)
  {
    hide TrimSpace;
    if k > 0 {
      var before: nat := k - 1;
      SkippingIff(lines, before);
      forall j | j <= before
        ensures BlockReaches(lines, j, k) <==> BlockReaches(lines, j, before) && !IsBlankLine(lines[k])
      {
        BlockGoesOn(lines, j, before);
      }
    }
    assert BlockReaches(lines, k, k) <==> "#*" <= TrimSpace(lines[k]);
  }

  /** A line is a comment exactly when it starts with '#', or when a line "#*" before it opens
      a block that no blank line has ended. */
  lemma CommentIff(lines: seq<string>, k: nat)
    requires k < |lines|
    ensures CommentLine(SkippingAt(lines, k), lines[k]) <==>
            "#" <= TrimSpace(lines[k]) || exists j :: j < k && BlockReaches(lines, j, k)
  {
    hide TrimSpace;
    if k > 0 {
      var before: nat := k - 1;
      SkippingIff(lines, before);
      forall j | j <= before
        ensures BlockReaches(lines, j, k) <==> BlockReaches(lines, j, before) && !IsBlankLine(lines[k])
      {
        BlockGoesOn(lines, j, before);
      }
    }
  }
}
