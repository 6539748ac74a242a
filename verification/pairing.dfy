/** The `requires_pairing` decorator: a hosted backend that answers
    "unauthorized" turns into the phrase that starts the pairing skill,
    instead of an error. */
module Pairing {
  import opened Outcomes

  /** The phrase that triggers the pairing workflow downstream. */
  const PairingPhrase: string := "pair my device"

  /** The HTTP status the decorator recognises as "device not paired". */
  const Unauthorized: int := 401

  /** The decorator's handling of one outcome of the wrapped call: a result
      passes through untouched, an `HTTPError` with status 401 becomes the
      pairing phrase, and every other exception is raised again as it was. */
  function PairingGuard(o: Outcome<string>): (r: Outcome<string>)
    ensures o.Returned? ==> r == o
    ensures o == Raised(HttpError(Unauthorized)) ==> r == Returned(PairingPhrase)
    ensures o.Raised? && o.exc.HttpError? && o.exc.status != Unauthorized ==> r == o
    ensures o.Raised? && !o.exc.HttpError? ==> r == o
  {
    match o
    case Raised(HttpError(status)) =>
      if status == Unauthorized then Returned(PairingPhrase) else o
    case _ => o
  }

  /** `requires_pairing(func)`: the wrapped function, which calls `func`
      and guards its outcome. */
  function RequiresPairing<A(!new)>(func: A -> Outcome<string>): (wrapper: A -> Outcome<string>)
    ensures forall a :: wrapper(a) == PairingGuard(func(a))
  {
    (a: A) => PairingGuard(func(a))
  }

  /** The wrapper changes an outcome exactly when it is the 401 error. */
  lemma GuardChangesOnly401(o: Outcome<string>)
    ensures PairingGuard(o) != o <==> o == Raised(HttpError(Unauthorized))
  {
  }

  /** Seeing the pairing phrase means the call either produced that phrase
      itself or was refused with 401; no other failure maps to it. */
  lemma PhraseOnlyFrom401(o: Outcome<string>)
    ensures PairingGuard(o) == Returned(PairingPhrase) <==>
      (o == Returned(PairingPhrase) || o == Raised(HttpError(Unauthorized)))
  {
  }

  /** Wrapping an already wrapped function adds nothing. */
  lemma RequiresPairingIdempotent<A(!new)>(func: A -> Outcome<string>, a: A)
    ensures RequiresPairing(RequiresPairing(func))(a) == RequiresPairing(func)(a)
  {
  }
}
