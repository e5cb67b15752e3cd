/** When a candidate fact may be used: `app/models/candidate_profile.py`. */
module CandidateTrust {

  datatype Source = USER_CONFIRMED | USER_PROVIDED_DOCUMENT | MANUAL_ENTRY | IMPORTED | INFERRED_SOURCE | UNKNOWN_SOURCE

  datatype Confidence = CONFIRMED | UNCONFIRMED | INFERRED_FACT | UNKNOWN_CONFIDENCE

  datatype Trust = Trust(source: Source, confidence: Confidence)

  /** The one rule for using a fact: a person asserted it, and it is confirmed. */
  predicate IsUsable(t: Trust) {
    && (t.source == USER_CONFIRMED || t.source == USER_PROVIDED_DOCUMENT || t.source == MANUAL_ENTRY)
    && t.confidence == CONFIRMED
  }

  /** A fact may be used exactly when it is confirmed and was neither imported nor
      inferred nor of unknown origin. */
  lemma UsableMeaning(t: Trust)
    ensures IsUsable(t) <==>
      t.confidence == CONFIRMED && t.source !in {IMPORTED, INFERRED_SOURCE, UNKNOWN_SOURCE}
  {
  }
}
