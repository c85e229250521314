/**
 * The four sentinel literals that delimit the sources segment and the
 * answer segment of the streamed completion text.
 */
module Tokens {
  import opened Text

  const SearchStart: string := "<search>"
  const SearchEnd: string := "</search>"
  const LlmStart: string := "<completion>"
  const LlmEnd: string := "</completion>"

  /** Every token opens with '<' and has no other '<', so no token can overlap itself. */
  lemma TokensLeadUnique()
    ensures LeadUnique(SearchStart) && LeadUnique(SearchEnd)
    ensures LeadUnique(LlmStart) && LeadUnique(LlmEnd)
    ensures SearchStart[0] == SearchEnd[0] == LlmStart[0] == LlmEnd[0] == '<'
  {
  }

  /** Each opening token differs from its closing token and is not a substring of it. */
  lemma OpeningTokensNotInClosing()
    ensures SearchStart != SearchEnd && LlmStart != LlmEnd
    ensures !Contains(SearchEnd, SearchStart) && !Contains(LlmEnd, LlmStart)
  {
    NotContainsWithoutLead("", SearchStart);
    NotContainsAfterLead(SearchEnd, "", SearchStart);
    assert SearchEnd + "" == SearchEnd;
    NotContainsWithoutLead("", LlmStart);
    NotContainsAfterLead(LlmEnd, "", LlmStart);
    assert LlmEnd + "" == LlmEnd;
  }
}
