/**
 * Bi-temporal validity (src/model/types.ts).
 *
 * Instants are milliseconds. A clock read (`new Date()`) is the parameter `now`.
 */
module Temporal {
  import opened Wrappers

  type Instant = int

  /** The four dates of a fact row. Only hand-made rows lack createdAt. */
  datatype Stamps = Stamps(
    validAt: Option<Instant>,
    invalidAt: Option<Instant>,
    createdAt: Option<Instant>,
    expiredAt: Option<Instant>)

  /** Was the row true at `t`, according to what was known at `known`? */
  predicate IsFactActive(f: Stamps, t: Instant, known: Instant) {
    if f.createdAt.Some? && f.createdAt.value > known then false
    else if f.validAt.Some? && f.validAt.value > t then false
    else if f.invalidAt.Some? then
      var endKnownAt := if f.expiredAt.Some? then f.expiredAt else f.createdAt;
      !(f.invalidAt.value <= t && (endKnownAt.None? || endKnownAt.value <= known))
    else !(f.expiredAt.Some? && f.expiredAt.value <= known)
  }

  predicate IsFactKnown(f: Stamps, asOf: Option<Instant>) {
    asOf.None? || f.createdAt.None? || f.createdAt.value <= asOf.value
  }

  datatype FactState = Active | Future | Ended | Retracted

  datatype View = View(state: FactState, endsAt: Option<Instant>, revisedLater: bool)

  function FactView(f: Stamps, t: Instant, known: Instant): Option<View> {
    if f.createdAt.Some? && f.createdAt.value > known then None
    else
      var revisedLater := f.expiredAt.Some? && f.expiredAt.value > known;
      var retractedShape :=
        if f.invalidAt.Some? then f.validAt.Some? && f.invalidAt.value <= f.validAt.value else f.expiredAt.Some?;
      var endKnownAt := if f.expiredAt.Some? then f.expiredAt else f.createdAt;
      var endsAt :=
        if f.invalidAt.Some? && (endKnownAt.None? || endKnownAt.value <= known) then f.invalidAt else None;
      if retractedShape && f.expiredAt.Some? && f.expiredAt.value <= known then
        Some(View(Retracted, endsAt, revisedLater))
      else if endsAt.Some? && endsAt.value <= t then Some(View(Ended, endsAt, revisedLater))
      else if f.validAt.Some? && f.validAt.value > t then Some(View(Future, endsAt, revisedLater))
      else Some(View(Active, endsAt, revisedLater))
  }

  /** The view refines activity, and a row it calls retracted is active at no instant. */
  lemma ViewRefinesActive(f: Stamps, t: Instant, known: Instant)
    ensures IsFactActive(f, t, known) <==> FactView(f, t, known).Some? && FactView(f, t, known).value.state == Active
    ensures FactView(f, t, known).Some? <==> IsFactKnown(f, Some(known))
    ensures FactView(f, t, known).Some? && FactView(f, t, known).value.state == Retracted
            ==> forall u :: !IsFactActive(f, u, known)
    ensures FactView(f, t, known).Some? && FactView(f, t, known).value.state == Future
            ==> !IsFactActive(f, t, known) && f.validAt.Some? && t < f.validAt.value
  {
  }

  /**
   * The whole view of a known row: retracted exactly when a revision known by
   * then left it active at no instant, ended or future by its window, and
   * active otherwise; its end as far as it was known, and whether it was
   * revised afterwards.
   */
  lemma ViewIs(f: Stamps, t: Instant, known: Instant)
    requires f.createdAt.Some? ==> f.createdAt.value <= known
    ensures FactView(f, t, known).Some?
    ensures var v := FactView(f, t, known).value;
            && (v.revisedLater <==> f.expiredAt.Some? && known < f.expiredAt.value)
            && v.endsAt == (if f.expiredAt.Some? && known < f.expiredAt.value then None else f.invalidAt)
            && (v.state == Retracted <==> f.expiredAt.Some? && f.expiredAt.value <= known && forall u :: !IsFactActive(f, u, known))
            && (v.state != Retracted ==>
                  && (v.state == Ended <==> v.endsAt.Some? && v.endsAt.value <= t)
                  && (v.state == Future <==> f.validAt.Some? && t < f.validAt.value && !(v.endsAt.Some? && v.endsAt.value <= t)))
  {
    if f.expiredAt.Some? && f.expiredAt.value <= known {
      var u := if f.validAt.Some? then f.validAt.value else if f.invalidAt.Some? then f.invalidAt.value - 1 else t;
      assert FactView(f, t, known).value.state != Retracted ==> IsFactActive(f, u, known);
    }
  }
}
