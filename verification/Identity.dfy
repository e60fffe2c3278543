/** The identity under which a message is recognised as a duplicate. */
module Identity {
  import opened Text
  import opened Wrappers

  /** The five places an identity may stand, in the order they are tried, each with the text
      of its value; a place that is missing, holds something false, or lies inside something
      that is not a dictionary is `None`. */
  datatype Payload = Payload(
    envelopeEventId: Option<string>,
    envelopeIdempotencyKey: Option<string>,
    contractEventId: Option<string>,
    eventId: Option<string>,
    idempotencyKey: Option<string>)
  {
    function Candidates(): seq<Option<string>> {
      [envelopeEventId, envelopeIdempotencyKey, contractEventId, eventId, idempotencyKey]
    }

    function Identity(): Option<string> {
      FirstNonBlank(Candidates())
    }
  }

  function Token(candidate: Option<string>): string {
    Strip(candidate.GetOr(""))
  }

  function FirstNonBlank(candidates: seq<Option<string>>): Option<string> {
    if candidates == [] then None
    else if Token(candidates[0]) != "" then Some(Token(candidates[0]))
    else FirstNonBlank(candidates[1..])
  }

  /** The identity is the first candidate that is not blank, stripped; there is none exactly
      when every candidate is blank. */
  lemma FirstNonBlankMeaning(candidates: seq<Option<string>>) returns (k: nat)
    ensures k <= |candidates| && forall i :: 0 <= i < k ==> Token(candidates[i]) == ""
    ensures FirstNonBlank(candidates).None? <==> k == |candidates|
    ensures k < |candidates| ==> Token(candidates[k]) != "" && FirstNonBlank(candidates) == Some(Token(candidates[k]))
  {
    if candidates == [] || Token(candidates[0]) != "" {
      k := 0;
    } else {
      k := FirstNonBlankMeaning(candidates[1..]);
      k := k + 1;
    }
  }

  /** An identity survives the stripping the duplicate filter applies to its keys. */
  lemma IdentityIsToken(p: Payload)
    requires p.Identity().Some?
    ensures p.Identity().value != "" && Strip(p.Identity().value) == p.Identity().value
  {
    var k := FirstNonBlankMeaning(p.Candidates());
    StripIsTrimmed(p.Candidates()[k].GetOr(""));
    StripOfTrimmed(p.Identity().value);
  }

  /** Which of the five fields the identity is, in their own terms: the envelope's event id
      where it is not blank, and each of the others only where all before it are. */
  lemma IdentityByField(p: Payload)
    ensures var envelopeId, envelopeKey := Strip(p.envelopeEventId.GetOr("")), Strip(p.envelopeIdempotencyKey.GetOr(""));
      var contractId, ownId, ownKey := Strip(p.contractEventId.GetOr("")), Strip(p.eventId.GetOr("")), Strip(p.idempotencyKey.GetOr(""));
      && (envelopeId != "" ==> p.Identity() == Some(envelopeId))
      && (envelopeId == "" && envelopeKey != "" ==> p.Identity() == Some(envelopeKey))
      && (envelopeId == envelopeKey == "" && contractId != "" ==> p.Identity() == Some(contractId))
      && (envelopeId == envelopeKey == contractId == "" && ownId != "" ==> p.Identity() == Some(ownId))
      && (envelopeId == envelopeKey == contractId == ownId == "" && ownKey != "" ==> p.Identity() == Some(ownKey))
      && (p.Identity().None? <==> envelopeId == envelopeKey == contractId == ownId == ownKey == "")
  {
    hide Strip;
    var k := FirstNonBlankMeaning(p.Candidates());
    var c := p.Candidates();
    assert Token(c[0]) == Strip(p.envelopeEventId.GetOr("")) && Token(c[1]) == Strip(p.envelopeIdempotencyKey.GetOr(""));
    assert Token(c[2]) == Strip(p.contractEventId.GetOr("")) && Token(c[3]) == Strip(p.eventId.GetOr(""));
    assert Token(c[4]) == Strip(p.idempotencyKey.GetOr(""));
  }

  /** One of the five fields says this. */
  predicate Carries(p: Payload, token: string) {
    || Strip(p.envelopeEventId.GetOr("")) == token
    || Strip(p.envelopeIdempotencyKey.GetOr("")) == token
    || Strip(p.contractEventId.GetOr("")) == token
    || Strip(p.eventId.GetOr("")) == token
    || Strip(p.idempotencyKey.GetOr("")) == token
  }

  lemma IdentityIsCarried(p: Payload)
    requires p.Identity().Some?
    ensures Carries(p, p.Identity().value)
  {
    hide Strip;
    IdentityByField(p);
  }

  /** A message is known by its envelope's event id whenever that is not blank, whatever else
      it carries; by the envelope's idempotency key only failing that; then by the event id
      of its contract, its own event id and its own idempotency key. */
  method ExtractMessageIdentity(payload: Payload) returns (identity: Option<string>)
    ensures identity == payload.Identity()
    ensures var envelopeId, envelopeKey := Strip(payload.envelopeEventId.GetOr("")), Strip(payload.envelopeIdempotencyKey.GetOr(""));
      var contractId, ownId, ownKey := Strip(payload.contractEventId.GetOr("")), Strip(payload.eventId.GetOr("")), Strip(payload.idempotencyKey.GetOr(""));
      && (envelopeId != "" ==> identity == Some(envelopeId))
      && (envelopeId == "" && envelopeKey != "" ==> identity == Some(envelopeKey))
      && (envelopeId == envelopeKey == "" && contractId != "" ==> identity == Some(contractId))
      && (envelopeId == envelopeKey == contractId == "" && ownId != "" ==> identity == Some(ownId))
      && (envelopeId == envelopeKey == contractId == ownId == "" && ownKey != "" ==> identity == Some(ownKey))
      && (identity.None? <==> envelopeId == envelopeKey == contractId == ownId == ownKey == "")
  {
    hide Token;
    IdentityByField(payload);
    var candidates := payload.Candidates();
    for i := 0 to |candidates|
      invariant FirstNonBlank(candidates) == FirstNonBlank(candidates[i..])
    {
      var token := Token(candidates[i]);
      if token != "" {
        return Some(token);
      }
    }
    return None;
  }
}
