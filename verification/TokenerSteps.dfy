/** Single passes of the tokener, as steps from one position of a run to another. */
module TokenerSteps {
  import opened Bytes
  import opened JsonValue
  import opened TokenerMachine

  /** Both positions of the machine lead to the same end of the call. */
  predicate Leads(g: Config, t: Tok, i: nat, t': Tok, j: nat, input: bytes) {
    && WellFormed(g, t) && WellFormed(g, t') && i <= |input| && j <= |input|
    && Run(g, t, input, i) == Run(g, t', input, j)
  }

  /** One pass that consumes a character. */
  lemma Consume(g: Config, t: Tok, input: bytes, i: nat, t': Tok)
    requires WellFormed(g, t) && i < |input| && input[i] != NUL && Step(g, t, input, i) == Advance(t', 1)
    ensures Leads(g, t, i, t', i + 1, input) && t'.obj == JNull
  {
    StepKeeps(g, t, input, i);
    hide Step, Shape;
  }

  /** One pass that starts over with the same character. */
  lemma Restart(g: Config, t: Tok, input: bytes, i: nat, t': Tok)
    requires WellFormed(g, t) && i < |input| && Step(g, t, input, i) == Redo(t')
    ensures Leads(g, t, i, t', i, input)
  {
    StepKeeps(g, t, input, i);
    hide Step, Shape;
  }
}
