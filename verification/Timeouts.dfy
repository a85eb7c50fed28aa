/** Timing out queries from the tail of a list that is newest first, as both tools do. */
module Timeouts {
  import opened Lists

  function Tail(s: seq<nat>): nat
    requires s != []
  {
    s[|s| - 1]
  }

  predicate Expired(ts: nat, now: nat, timeout: nat) { ts <= now && now - ts >= timeout }

  /** A query has expired once the timeout has passed since its stamp. */
  lemma {:induction false} ExpiredIff(ts: nat, now: nat, timeout: nat)
    ensures Expired(ts, now, timeout) <==> ts + timeout <= now
  {
  }

  ghost predicate NewestFirst(out: seq<nat>, stamps: seq<nat>) {
    && (forall i :: 0 <= i < |out| ==> out[i] < |stamps|)
    && (forall i, j :: 0 <= i < j < |out| ==> stamps[out[i]] >= stamps[out[j]])
  }

  /** Every element left keeps its place, or moves up by one. */
  lemma {:induction false} WithoutPlaces(out: seq<nat>, q: nat) returns (k: nat)
    requires Distinct(out)
    ensures forall i :: 0 <= i < |Without(out, q)| ==>
              (if i < k then i else i + 1) < |out| && Without(out, q)[i] == out[if i < k then i else i + 1]
  {
    if q in out {
      k := TakenFrom(out, q);
    } else {
      k := |out|;
      WithoutStranger(out, q);
    }
  }

  ghost predicate ExpiredAt(out: seq<nat>, stamps: seq<nat>, i: nat, now: nat, timeout: nat)
    requires i < |out|
  {
    out[i] < |stamps| && Expired(stamps[out[i]], now, timeout)
  }

  /** What is taken off the tail: m is where the first query from the tail that has not expired ends. */
  ghost predicate StopsAt(out: seq<nat>, stamps: seq<nat>, m: nat, now: nat, timeout: nat) {
    && m <= |out|
    && (forall i :: m <= i < |out| ==> ExpiredAt(out, stamps, i, now, timeout))
    && (m > 0 ==> !ExpiredAt(out, stamps, m - 1, now, timeout))
  }

  lemma {:induction false} StopsMore(out: seq<nat>, stamps: seq<nat>, m: nat, now: nat, timeout: nat)
    requires out != [] && StopsAt(out[..|out| - 1], stamps, m, now, timeout)
    requires ExpiredAt(out, stamps, |out| - 1, now, timeout)
    ensures StopsAt(out, stamps, m, now, timeout) && out[..|out| - 1][..m] == out[..m]
  {
    var less := out[..|out| - 1];
    forall i | m <= i < |out|
      ensures ExpiredAt(out, stamps, i, now, timeout)
    {
      if i < |less| { assert ExpiredAt(less, stamps, i, now, timeout); }
    }
    if m > 0 { assert ExpiredAt(less, stamps, m - 1, now, timeout) == ExpiredAt(out, stamps, m - 1, now, timeout); }
  }

  /** No expired query is ahead of one that has not expired. */
  ghost predicate ExpiredLast(out: seq<nat>, stamps: seq<nat>, now: nat, timeout: nat) {
    forall i, j :: 0 <= i < j < |out| && ExpiredAt(out, stamps, i, now, timeout) ==> ExpiredAt(out, stamps, j, now, timeout)
  }

  /** The queries from place m on have expired, and no others. */
  ghost predicate CutAt(out: seq<nat>, stamps: seq<nat>, m: nat, now: nat, timeout: nat) {
    m <= |out| && forall i :: 0 <= i < |out| ==> (ExpiredAt(out, stamps, i, now, timeout) <==> m <= i)
  }

  lemma {:induction false} StopIsCut(out: seq<nat>, stamps: seq<nat>, m: nat, now: nat, timeout: nat)
    requires StopsAt(out, stamps, m, now, timeout) && ExpiredLast(out, stamps, now, timeout)
    ensures CutAt(out, stamps, m, now, timeout)
  {
    forall i | 0 <= i < m
      ensures !ExpiredAt(out, stamps, i, now, timeout)
    {
      var last := m - 1;
      assert !ExpiredAt(out, stamps, last, now, timeout);
    }
  }

  lemma {:induction false} OrderedExpireLast(out: seq<nat>, stamps: seq<nat>, now: nat, timeout: nat)
    requires NewestFirst(out, stamps)
    ensures ExpiredLast(out, stamps, now, timeout)
  {
  }

  /** Taking an expired tail off and going on cuts at the first expired query exactly when the expired ones are last. */
  lemma {:induction false} TailThenRest(out: seq<nat>, stamps: seq<nat>, m: nat, now: nat, timeout: nat)
    requires out != [] && ExpiredAt(out, stamps, |out| - 1, now, timeout)
    requires StopsAt(out[..|out| - 1], stamps, m, now, timeout)
    ensures CutAt(out, stamps, m, now, timeout) <==> ExpiredLast(out, stamps, now, timeout)
    ensures out[..|out| - 1][..m] == out[..m]
  {
    StopsMore(out, stamps, m, now, timeout);
    if ExpiredLast(out, stamps, now, timeout) { StopIsCut(out, stamps, m, now, timeout); }
  }
}
