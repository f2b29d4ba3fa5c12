/** The dispatcher with a redactor for its sanitiser: what the backends get to see. */
module AuditPrivacy {
  import opened Prelude
  import Dispatch
  import AuditDispatcher
  import Luhn
  import Redactor

  function Sanitizing(r: Redactor.Redactor): AuditDispatcher.Sanitizer<Redactor.Json> {
    p => Some(Redactor.Walk(r, p))
  }

  function CleanFor(r: Redactor.Redactor): Redactor.Json -> bool {
    p => Redactor.Clean(r, p)
  }

  /** On every run no backend, the fallback included, is handed an event with a secret under a matching key. */
  lemma NoSecretReachesBackend(r: Redactor.Redactor, c: Dispatch.Config, steps: seq<AuditDispatcher.Step<Redactor.Json>>)
    ensures var l := AuditDispatcher.Run(Sanitizing(r), c, steps).l;
            forall call: seq<AuditDispatcher.AuditEvent<Redactor.Json>>, e: AuditDispatcher.AuditEvent<Redactor.Json> ::
              (call in l.primaryCalls || call in l.fallbackCalls) && e in call ==>
                Redactor.Clean(r, e.payload) && Redactor.Clean(r, e.details)
  {
    hide AuditDispatcher.Run, Redactor.Clean, Redactor.Walk;
    forall p: Redactor.Json ensures Sanitizing(r)(p).Some? && CleanFor(r)(Sanitizing(r)(p).value) {
      Redactor.WalkIsClean(r, p);
    }
    AuditDispatcher.OnlySanitisedReachesBackends(Sanitizing(r), CleanFor(r), c, steps);
  }

  /** The validator of the credit-card pattern, on what that pattern matches. */
  function CardCheck(alphabet: Luhn.Alphabet): string -> bool {
    match_ =>
      match Luhn.DigitsOf(alphabet, match_) case Some(digits) => Luhn.Valid(digits) case None => false
  }

  /** Card-like text whose digits all fail the check is stored as it is. */
  lemma InvalidCardsStay(alphabet: Luhn.Alphabet, cut: string -> seq<Redactor.Piece>, text: string)
    requires Redactor.Joined(cut(text)) == text
    requires forall i :: 0 <= i < |cut(text)| && cut(text)[i].Match? ==>
               match Luhn.DigitsOf(alphabet, cut(text)[i].text) case Some(digits) => !Luhn.Valid(digits) case None => false
    ensures Redactor.Scrub([Redactor.Rule(cut, Some(CardCheck(alphabet)))], text) == text
  {
    hide Luhn.Valid, Luhn.DigitsOf, Redactor.Joined, Redactor.Masked;
    var rule := Redactor.Rule(cut, Some(CardCheck(alphabet)));
    Redactor.UnconfirmedStays(rule, cut(text));
    assert [rule][..0] == [];
  }
}
