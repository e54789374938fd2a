/** The rate bound itself: a log of admissions, and what a theoretical arrival
    time says about every stretch of it. */
module Conformance {

  /** `units` admitted on a reading `at` (ns), which lies in interval `iv`. */
  datatype Admission = Admission(at: nat, iv: nat, units: nat)

  /** Units admitted in the intervals `from..=to`. */
  function Total(log: seq<Admission>, from: nat, to: nat): nat {
    if log == [] then 0
    else
      var last := log[|log| - 1];
      Total(log[..|log| - 1], from, to) + if from <= last.iv <= to then last.units else 0
  }

  /** Units admitted on readings in the instants `from..=to`. */
  function TotalRead(log: seq<Admission>, from: nat, to: nat): nat {
    if log == [] then 0
    else
      var last := log[|log| - 1];
      TotalRead(log[..|log| - 1], from, to) + if from <= last.at <= to then last.units else 0
  }

  /** Every stretch of intervals has admitted at most the burst and what the
      stretch emits, and the word is past all of it. */
  ghost predicate Conforms(log: seq<Admission>, word: nat, burst: nat) {
    forall from: nat, to: nat :: from <= to && Total(log, from, to) > 0 ==>
      from + Total(log, from, to) <= word && Total(log, from, to) <= burst + to - from
  }

  lemma TotalOfEmpty(log: seq<Admission>, word: nat, burst: nat)
    requires log == []
    ensures Conforms(log, word, burst)
  {
  }

  lemma TotalAppend(log: seq<Admission>, e: Admission, from: nat, to: nat)
    ensures Total(log + [e], from, to) == Total(log, from, to) + (if from <= e.iv <= to then e.units else 0)
    ensures TotalRead(log + [e], from, to) == TotalRead(log, from, to) + (if from <= e.at <= to then e.units else 0)
  {
    assert (log + [e])[..|log|] == log;
  }

  /** One conforming admission keeps the bound on every stretch at once. */
  lemma AdmitKeepsConformance(log: seq<Admission>, word: nat, burst: nat, e: Admission)
    requires Conforms(log, word, burst)
    requires (if word >= e.iv then word else e.iv) + e.units <= e.iv + burst
    ensures Conforms(log + [e], (if word >= e.iv then word else e.iv) + e.units, burst)
  {
    var word' := (if word >= e.iv then word else e.iv) + e.units;
    forall from: nat, to: nat | from <= to && Total(log + [e], from, to) > 0
      ensures from + Total(log + [e], from, to) <= word' && Total(log + [e], from, to) <= burst + to - from
    {
      TotalAppend(log, e, from, to);
    }
  }

  lemma RaiseKeepsConformance(log: seq<Admission>, word: nat, raised: nat, burst: nat)
    requires Conforms(log, word, burst) && word <= raised
    ensures Conforms(log, raised, burst)
  {
  }

  lemma {:induction false} ReadsLieInIntervals(log: seq<Admission>, from: nat, to: nat, ivFrom: nat, ivTo: nat)
    requires forall e :: e in log && from <= e.at <= to ==> ivFrom <= e.iv <= ivTo
    ensures TotalRead(log, from, to) <= Total(log, ivFrom, ivTo)
  {
    if log != [] {
      var init := log[..|log| - 1];
      assert forall e :: e in init ==> e in log;
      assert log[|log| - 1] in log;
      ReadsLieInIntervals(init, from, to, ivFrom, ivTo);
    }
  }
}
