/**
 * json_valid (src/json_check.c), and what the decoder makes of the texts that it
 * takes for valid.
 */
module JsonValidity {
  import opened JsonCheck
  import opened JsonGrammar
  import opened JsonDerivation
  import DictMarshall
  import DictMeaning

  const JSON_CHECK_DEPTH: nat := 15

  /** json_valid. */
  method JsonValid(json: string) returns (ok: bool)
    ensures ok <==> Derives(Seen(json), 14)
  {
    hide Step, Done, Derives;
    AcceptsGrammar(Seen(json), JSON_CHECK_DEPTH);
    var jc := new Checker(JSON_CHECK_DEPTH);
    var i := 0;
    assert json[0..] == json;
    while i < |json| && json[i] != '\0'
      invariant 0 <= i <= |json| && fresh(jc) && fresh(jc.stack) && jc.depth == JSON_CHECK_DEPTH
      invariant jc.Valid() && jc.stack[0] == MODE_DONE
      invariant Steps(jc.Now(), Seen(json[i..]), JSON_CHECK_DEPTH) == Steps(START, Seen(json), JSON_CHECK_DEPTH)
    {
      if json[i] > '\U{7f}' {
        break;
      }
      SeenStep(json, i, jc.Now(), JSON_CHECK_DEPTH);
      var go := jc.Char(json[i]);
      if !go {
        StepsRejected(Seen(json[i + 1..]), JSON_CHECK_DEPTH);
        NotDone();
        return false;
      }
      i := i + 1;
    }
    assert Seen(json[i..]) == [];
    ok := jc.Finish();
  }

  lemma NotDone()
    ensures !Done(Rejected)
  {
  }

  /** A text that is valid has a derivation, and the decoder gives its tree. */
  lemma ValidDecodes(s: string, depth: nat) returns (d: Derivation)
    requires 0 < depth && Accepts(s, depth)
    ensures DerivationOk(d, depth - 1) && DerivationText(d) == s
    ensures DictMarshall.Decode(s, []) == DictMarshall.Object(DictMeaning.TreeOf([], d.value))
  {
    AcceptsGrammar(s, depth);
    d :| DerivationOk(d, depth - 1) && DerivationText(d) == s;
    hide Accepts, DerivationOk, DerivationText, DictMarshall.Decode, DictMeaning.TreeOf;
    DictMeaning.DecodesGrammar(d, depth - 1);
  }
}
