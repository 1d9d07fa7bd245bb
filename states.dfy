/** The operational states of the launch/approach panel (state.h).
    C numbers the enumerators of `State` 0, 1, 2, ... in declaration order,
    and FAULT is declared last so that its ordinal can serve as the modulus
    of the transition rule. */
module States {

  datatype Option<T> = None | Some(value: T)

  datatype State = SafeToApproach | ReadyToLaunch | Crawl | Fault

  /** The enumerators in the order in which they are declared. */
  const Declared: seq<State> := [SafeToApproach, ReadyToLaunch, Crawl, Fault]

  /** The C value of an enumerator: its position in the declaration. */
  function Ordinal(s: State): (n: nat)
    ensures n < |Declared| && Declared[n] == s
  {
    match s
    case SafeToApproach => 0
    case ReadyToLaunch => 1
    case Crawl => 2
    case Fault => 3
  }

  /** The enumerator whose value is `n`, if there is one. */
  function FromOrdinal(n: int): (r: Option<State>)
    ensures r.Some? <==> 0 <= n < |Declared|
    ensures r.Some? ==> Ordinal(r.value) == n
  {
    if 0 <= n < |Declared| then Some(Declared[n]) else None
  }

  lemma OrdinalRoundTrip(s: State)
    ensures FromOrdinal(Ordinal(s)) == Some(s)
  {
  }

  /** FAULT has the largest ordinal: every live state lies strictly below it,
      and the ordinals are exactly 0..3. */
  lemma FaultIsLast(s: State)
    ensures s != Fault <==> Ordinal(s) < Ordinal(Fault)
    ensures Ordinal(Fault) == |Declared| - 1 == 3
  {
  }
}
