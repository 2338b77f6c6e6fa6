/**
 * The assembly fixup applied to the rewriter's output for the curl and
 * openssl benchmarks: an `andb` whose memory operand uses the `%riz`
 * pseudo-register (always zero, emitted only to lengthen the encoding),
 * which the GNU assembler rejects, becomes the equivalent instruction
 * without it.
 */
module AsmPatch {
  import opened Text

  /** The instruction text the assembler rejects. */
  const RizPattern: string := "andb %bh,(%rcx,%riz,2)"

  /** Its replacement without the pseudo-register. */
  const RizReplacement: string := "andb (%rcx), %bh"

  /** The riz pattern and its replacement cannot give rise to a new occurrence. */
  lemma {:induction false} RizClearsPattern()
    ensures ClearsPattern(RizPattern, RizReplacement)
  {
    assert RizPattern[..|RizReplacement|] != RizReplacement by {
      assert RizPattern[5] != RizReplacement[5];
    }
  }

  /**
   * The contents written back by the fixup: the text read from the file
   * (decoded, with its line endings normalised) with every occurrence of
   * the riz instruction replaced. The result holds no
   * occurrence of that instruction.
   */
  function FixupRiz(asm: string): (fixed: string)
    ensures !Contains(fixed, RizPattern)
  {
    RizClearsPattern();
    ReplaceLeavesNoOccurrence(asm, RizPattern, RizReplacement);
    ReplaceAll(asm, RizPattern, RizReplacement)
  }

  /** Assembly without the riz instruction is written back unchanged. */
  lemma {:induction false} FixupRizWithoutPattern(asm: string)
    requires !Contains(asm, RizPattern)
    ensures FixupRiz(asm) == asm
  {
    ReplaceWithoutOccurrence(asm, RizPattern, RizReplacement);
  }

  /** Running the fixup on already fixed assembly changes nothing. */
  lemma {:induction false} FixupRizIdempotent(asm: string)
    ensures FixupRiz(FixupRiz(asm)) == FixupRiz(asm)
  {
    FixupRizWithoutPattern(FixupRiz(asm));
  }

  /**
   * Assembly holding the riz instruction exactly once: the instruction is
   * replaced and the text on either side is kept as it was.
   */
  lemma {:induction false} FixupRizSingle(before: string, after: string)
    requires forall j: nat :: OccursAt(before + RizPattern + after, RizPattern, j) ==> j == |before|
    ensures FixupRiz(before + RizPattern + after) == before + RizReplacement + after
  {
    ReplaceSingleOccurrence(before, after, RizPattern, RizReplacement);
  }

  /**
   * The fixed assembly is the original cut at every riz instruction, the
   * pieces kept in order and joined by the replacement. The pieces hold no
   * riz instruction, and joined by it they give back the original.
   */
  lemma {:induction false} FixupRizAsJoin(asm: string)
    ensures FixupRiz(asm) == Join(Split(asm, RizPattern), RizReplacement)
    ensures Join(Split(asm, RizPattern), RizPattern) == asm
    ensures forall k :: 0 <= k < |Split(asm, RizPattern)| ==> !Contains(Split(asm, RizPattern)[k], RizPattern)
  {
    ReplaceAllAsJoin(asm, RizPattern, RizReplacement);
    JoinSplit(asm, RizPattern);
    SplitPiecesClean(asm, RizPattern);
  }
}
