/**
 * What is valid JSON to the checker has well-formed tokens.
 */
module JsonTokens {
  import opened Dict
  import opened DictMarshall
  import opened DictSpans
  import opened JsonCheck
  import opened JsonAgreement

  /** Every ASCII text that json_valid accepts, dict_parse tokenizes with as many
      tokens as characters; the tokens are closed and nested. */
  lemma ValidTokenizes(str: string, depth: nat)
    requires Ascii(str) && Accepts(Seen(str), depth)
    ensures Parse(str, |str|).Tokens?
    ensures var toks := Parse(str, |str|).toks;
      Nested(toks) && forall i | 0 <= i < |toks| :: HasText(str, toks[i])
  {
    hide Parse, Seen, Accepts;
    ValidParses(str, depth);
    ParseNested(str, |str|);
  }

  lemma ValidParses(str: string, depth: nat)
    requires Ascii(str) && Accepts(Seen(str), depth)
    ensures Parse(str, |str|).Tokens?
  {
    StartRelated();
    assert str[0..] == str;
    Simulates(str, 0, START, State([], -1), |str|, depth);
  }
}
