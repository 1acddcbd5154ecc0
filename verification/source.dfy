/** internal/source/source.go: acknowledging the messages of one fetched batch by sequence. */
module Source {
  import opened Common

  /** Where the sequence-to-message map points: the last message carrying the sequence. */
  function LastIndex(infos: seq<nat>, sequence: nat): (i: Option<nat>)
    ensures i.Some? <==> sequence in infos
    ensures i.Some? ==> i.value < |infos| && infos[i.value] == sequence &&
                        forall k :: i.value < k < |infos| ==> infos[k] != sequence
  {
    if infos == [] then None
    else if infos[|infos| - 1] == sequence then Some(|infos| - 1)
    else LastIndex(infos[..|infos| - 1], sequence)
  }

  /** The messages reached by acknowledging these sequences, in order; unknown ones are skipped. */
  function Targets(infos: seq<nat>, sequences: seq<nat>): (ts: seq<nat>)
    ensures forall t :: t in ts ==> t < |infos|
  {
    if sequences == [] then []
    else
      var last := |sequences| - 1;
      var before := Targets(infos, sequences[..last]);
      match LastIndex(infos, sequences[last])
      case None => before
      case Some(i) => before + [i]
  }

  predicate Distinct(s: seq<nat>) {
    forall i, j :: 0 <= i < j < |s| ==> s[i] != s[j]
  }

  lemma {:induction false} TargetsReach(infos: seq<nat>, sequences: seq<nat>, t: nat)
    ensures t in Targets(infos, sequences) <==> t < |infos| && infos[t] in sequences && LastIndex(infos, infos[t]) == Some(t)
  {
    if sequences != [] {
      var last := |sequences| - 1;
      TargetsReach(infos, sequences[..last], t);
      assert sequences == sequences[..last] + [sequences[last]];
    }
  }

  lemma TargetsSnoc(infos: seq<nat>, sequences: seq<nat>, sequence: nat)
    ensures var before, found := Targets(infos, sequences), LastIndex(infos, sequence);
            Targets(infos, sequences + [sequence]) == if found.Some? then before + [found.value] else before
  {
    assert (sequences + [sequence])[..|sequences|] == sequences;
  }

  /** Distinct sequences reach distinct messages. */
  lemma {:induction false} TargetsAreDistinct(infos: seq<nat>, sequences: seq<nat>)
    requires Distinct(sequences)
    ensures Distinct(Targets(infos, sequences))
  {
    if sequences != [] {
      var front, last := sequences[..|sequences| - 1], sequences[|sequences| - 1];
      TargetsAreDistinct(infos, front);
      assert sequences == front + [last];
      TargetsSnoc(infos, front, last);
      forall t | t in Targets(infos, front)
        ensures infos[t] != last
      {
        TargetsReach(infos, front, t);
      }
    }
  }

  /** How many of the messages are settled before the first one whose callback fails. */
  function Settled(ts: seq<nat>, fails: nat -> bool): (n: nat)
    ensures n <= |ts|
    ensures forall k :: 0 <= k < n ==> !fails(ts[k])
    ensures n < |ts| ==> fails(ts[n])
  {
    if ts == [] then 0
    else
      var n := Settled(ts[..|ts| - 1], fails);
      if n == |ts| - 1 && !fails(ts[|ts| - 1]) then n + 1 else n
  }

  lemma SettledSnoc(ts: seq<nat>, t: nat, fails: nat -> bool)
    ensures var n := Settled(ts, fails);
            Settled(ts + [t], fails) == if n == |ts| && !fails(t) then n + 1 else n
  {
    assert (ts + [t])[..|ts|] == ts;
  }

  /** A failure ends the count for every longer list. */
  lemma {:induction false} SettledStops(infos: seq<nat>, sequences: seq<nat>, k: nat, fails: nat -> bool)
    requires k <= |sequences| && Settled(Targets(infos, sequences[..k]), fails) < |Targets(infos, sequences[..k])|
    ensures var some, all := Targets(infos, sequences[..k]), Targets(infos, sequences);
            some <= all && Settled(all, fails) == Settled(some, fails)
    decreases |sequences| - k
  {
    if k == |sequences| {
      assert sequences[..k] == sequences;
    } else {
      assert sequences[..k + 1] == sequences[..k] + [sequences[k]];
      TargetsSnoc(infos, sequences[..k], sequences[k]);
      var some, found := Targets(infos, sequences[..k]), LastIndex(infos, sequences[k]);
      if found.Some? {
        SettledSnoc(some, found.value, fails);
      }
      SettledStops(infos, sequences, k + 1, fails);
    }
  }

  /** The callback never reports an error. */
  ghost predicate NeverFails(fails: nat -> bool) {
    forall n :: !fails(n)
  }

  /** What one acknowledging call settles: the messages the sequences reach, in order, up to
      the first one whose callback fails. */
  function SettledBy(infos: seq<nat>, sequences: seq<nat>, fails: nat -> bool): (ts: seq<nat>)
    ensures NeverFails(fails) ==> ts == Targets(infos, sequences)
    ensures forall t :: t in ts ==> t in Targets(infos, sequences)
  {
    var all := Targets(infos, sequences);
    all[..Settled(all, fails)]
  }

  /** Every callback of the call succeeds. */
  predicate AllSucceed(infos: seq<nat>, sequences: seq<nat>, fails: nat -> bool) {
    var all := Targets(infos, sequences);
    Settled(all, fails) == |all|
  }

  /** One turn of the acknowledging loop. */
  lemma NextSequence(infos: seq<nat>, sequences: seq<nat>, k: nat, fails: nat -> bool)
    requires k < |sequences| && AllSucceed(infos, sequences[..k], fails)
    ensures var before, found := Targets(infos, sequences[..k]), LastIndex(infos, sequences[k]);
            if found.Some? && fails(found.value)
            then SettledBy(infos, sequences, fails) == before && !AllSucceed(infos, sequences, fails)
            else && AllSucceed(infos, sequences[..k + 1], fails)
                 && Targets(infos, sequences[..k + 1]) == if found.Some? then before + [found.value] else before
  {
    assert sequences[..k + 1] == sequences[..k] + [sequences[k]];
    TargetsSnoc(infos, sequences[..k], sequences[k]);
    var before, found := Targets(infos, sequences[..k]), LastIndex(infos, sequences[k]);
    if found.Some? {
      SettledSnoc(before, found.value, fails);
      if fails(found.value) {
        SettledStops(infos, sequences, k + 1, fails);
      }
    }
  }

  /** The broker's view of one fetched batch: the messages, by position, that were
      acknowledged and negatively acknowledged so far. */
  class Delivery {
    const infos: seq<nat>
    var acked: seq<nat>
    var nacked: seq<nat>

    constructor (infos: seq<nat>)
      ensures this.infos == infos && acked == [] && nacked == []
    {
      this.infos, acked, nacked := infos, [], [];
    }

    /** Acknowledges one message after the other and stops at the first one that fails. */
    method AckMessages(sequences: seq<nat>, fails: nat -> bool) returns (ok: bool)
      modifies this`acked
      ensures acked == old(acked) + SettledBy(infos, sequences, fails) && ok == AllSucceed(infos, sequences, fails)
    {
      for k := 0 to |sequences|
        invariant acked == old(acked) + Targets(infos, sequences[..k])
        invariant AllSucceed(infos, sequences[..k], fails)
      {
        NextSequence(infos, sequences, k, fails);
        var found := LastIndex(infos, sequences[k]);
        if found.Some? {
          if fails(found.value) {
            return false;
          }
          acked := acked + [found.value];
        }
      }
      assert sequences[..|sequences|] == sequences;
      return true;
    }

    method NackMessages(sequences: seq<nat>, fails: nat -> bool) returns (ok: bool)
      modifies this`nacked
      ensures nacked == old(nacked) + SettledBy(infos, sequences, fails) && ok == AllSucceed(infos, sequences, fails)
    {
      for k := 0 to |sequences|
        invariant nacked == old(nacked) + Targets(infos, sequences[..k])
        invariant AllSucceed(infos, sequences[..k], fails)
      {
        NextSequence(infos, sequences, k, fails);
        var found := LastIndex(infos, sequences[k]);
        if found.Some? {
          if fails(found.value) {
            return false;
          }
          nacked := nacked + [found.value];
        }
      }
      assert sequences[..|sequences|] == sequences;
      return true;
    }
  }
}
