/**
 * The per-slot seed table. A slot is the pair [image, seed]; a round
 * resolves each slot's seed with Python's `stored or fresh_draw`, where
 * both None and 0 are false, and writes the result back into the slot.
 */
module Seeds {
  import opened Wrappers

  /** Fresh seeds are drawn from [0, SeedRange). */
  const SeedRange: int := 1000

  datatype Slot<Pic> = Slot(image: Option<Pic>, seed: Option<int>)

  /** The stored seed is falsy in Python (None or 0), so a fresh one is drawn. */
  predicate NeedsDraw<Pic>(s: Slot<Pic>)
    ensures NeedsDraw(s) <==> s.seed in {None, Some(0)}
  {
    s.seed.None? || s.seed.value == 0
  }

  /** How many fresh draws a round over table t consumes. */
  function Needed<Pic>(t: seq<Slot<Pic>>): (n: nat)
    ensures n <= |t|
    ensures n == 0 <== forall k :: 0 <= k < |t| ==> !NeedsDraw(t[k])
  {
    if t == [] then 0 else (if NeedsDraw(t[0]) then 1 else 0) + Needed(t[1..])
  }

  /**
   * The table after one round: slots are visited in order, each falsy seed
   * takes the next unused draw, and every other slot is left as it was.
   */
  function ResolveTable<Pic>(t: seq<Slot<Pic>>, draws: seq<int>): (r: seq<Slot<Pic>>)
    requires Needed(t) <= |draws|
    ensures |r| == |t|
    ensures forall k {:trigger r[k]} :: 0 <= k < |t| ==> r[k].image == t[k].image && r[k].seed.Some?
    ensures forall k {:trigger r[k]} :: 0 <= k < |t| && !NeedsDraw(t[k]) ==> r[k] == t[k]
  {
    if t == [] then []
    else if NeedsDraw(t[0]) then [t[0].(seed := Some(draws[0]))] + ResolveTable(t[1..], draws[1..])
    else [t[0]] + ResolveTable(t[1..], draws)
  }

  /** Extending the visited prefix by one slot adds that slot's draw, if it needs one. */
  lemma {:induction false} NeededPrefixStep<Pic>(t: seq<Slot<Pic>>, k: nat)
    requires k < |t|
    ensures Needed(t[..k + 1]) == Needed(t[..k]) + (if NeedsDraw(t[k]) then 1 else 0)
  {
    if k == 0 {
      assert t[..1] == [t[0]] && t[..0] == [];
    } else {
      assert t[..k + 1][1..] == t[1..][..k];
      assert t[..k][1..] == t[1..][..k - 1];
      assert t[1..][k - 1] == t[k];
      NeededPrefixStep(t[1..], k - 1);
    }
  }

  /** Past the first slot, a round over t is the round over t[1..] with the first slot's draw spent. */
  lemma ResolveTableTail<Pic>(t: seq<Slot<Pic>>, draws: seq<int>, k: nat)
    requires Needed(t) <= |draws|
    requires 0 < k < |t|
    ensures var used := if NeedsDraw(t[0]) then 1 else 0;
            && Needed(t[1..]) <= |draws| - used
            && ResolveTable(t, draws)[k] == ResolveTable(t[1..], draws[used..])[k - 1]
  {
    if !NeedsDraw(t[0]) {
      assert draws[0..] == draws;
    }
  }

  /** The draws spent before slot k: the first slot's, then those before slot k - 1 of the rest. */
  lemma NeededPrefixHead<Pic>(t: seq<Slot<Pic>>, k: nat)
    requires 0 < k <= |t|
    ensures Needed(t[..k]) == (if NeedsDraw(t[0]) then 1 else 0) + Needed(t[1..][..k - 1])
  {
    var prefix := t[..k];
    assert prefix[0] == t[0] && prefix[1..] == t[1..][..k - 1];
  }

  /** The slot at index k of a falsy-seeded table receives draw number Needed(t[..k]). */
  lemma {:induction false} ResolvedDraw<Pic>(t: seq<Slot<Pic>>, draws: seq<int>, k: nat)
    requires Needed(t) <= |draws|
    requires k < |t| && NeedsDraw(t[k])
    ensures Needed(t[..k]) < |draws|
    ensures ResolveTable(t, draws)[k] == t[k].(seed := Some(draws[Needed(t[..k])]))
  {
    if k == 0 {
      assert t[..0] == [];
    } else {
      var used := if NeedsDraw(t[0]) then 1 else 0;
      var tail, rest := t[1..], draws[used..];
      ResolveTableTail(t, draws, k);
      NeededPrefixHead(t, k);
      assert tail[k - 1] == t[k];
      ResolvedDraw(tail, rest, k - 1);
      var m := Needed(tail[..k - 1]);
      assert Needed(t[..k]) == used + m;
      assert rest[m] == draws[used + m];
    }
  }

  /**
   * Slot k of a round, given that the slots before it spent `cursor` draws:
   * it spends the draw at `cursor` exactly when its stored seed is falsy.
   */
  lemma ResolveSlot<Pic>(t: seq<Slot<Pic>>, draws: seq<int>, k: nat, cursor: nat)
    requires Needed(t) <= |draws|
    requires k < |t| && cursor == Needed(t[..k])
    ensures NeedsDraw(t[k]) ==> cursor < |draws| && ResolveTable(t, draws)[k] == t[k].(seed := Some(draws[cursor]))
    ensures !NeedsDraw(t[k]) ==> ResolveTable(t, draws)[k] == t[k]
    ensures Needed(t[..k + 1]) == cursor + (if NeedsDraw(t[k]) then 1 else 0)
  {
    NeededPrefixStep(t, k);
    if NeedsDraw(t[k]) {
      ResolvedDraw(t, draws, k);
    }
  }

  /** A slot with a falsy seed gets a fresh seed from the random source's range. */
  lemma FreshSeedInRange<Pic>(t: seq<Slot<Pic>>, draws: seq<int>, k: nat)
    requires Needed(t) <= |draws|
    requires forall i :: 0 <= i < |draws| ==> 0 <= draws[i] < SeedRange
    requires k < |t| && NeedsDraw(t[k])
    ensures 0 <= ResolveTable(t, draws)[k].seed.value < 1000
  {
    ResolvedDraw(t, draws, k);
  }

  /**
   * A stored seed of 0 is not kept: like None it is falsy, so the slot takes
   * the next unused draw instead.
   */
  lemma ZeroSeedNotStable<Pic>(t: seq<Slot<Pic>>, draws: seq<int>, k: nat)
    requires Needed(t) <= |draws|
    requires k < |t| && t[k].seed == Some(0)
    ensures Needed(t[..k]) < |draws|
    ensures ResolveTable(t, draws)[k].seed == Some(draws[Needed(t[..k])])
  {
    ResolvedDraw(t, draws, k);
  }

  /** An instance of the above: a one-slot table holding seed 0 takes the draw 7. */
  lemma ZeroSeedExample()
    ensures ResolveTable<int>([Slot(None, Some(0))], [7]) == [Slot(None, Some(7))]
  {
    var t: seq<Slot<int>> := [Slot(None, Some(0))];
    ResolvedDraw(t, [7], 0);
    assert t[..0] == [];
  }

  /** A table whose every seed is truthy draws nothing and is left exactly as it was. */
  lemma SettledTableUnchanged<Pic>(t: seq<Slot<Pic>>, draws: seq<int>)
    requires forall k :: 0 <= k < |t| ==> !NeedsDraw(t[k])
    ensures Needed(t) == 0
    ensures ResolveTable(t, draws) == t
  {
    var r := ResolveTable(t, draws);
    assert forall k :: 0 <= k < |t| ==> r[k] == t[k];
  }

  /**
   * When the random source never yields 0, a second round over the
   * resolved table draws nothing and changes nothing: every slot reuses
   * its seed.
   */
  lemma SecondRoundReusesSeeds<Pic>(t: seq<Slot<Pic>>, first: seq<int>, second: seq<int>)
    requires Needed(t) <= |first|
    requires forall i :: 0 <= i < |first| ==> first[i] != 0
    ensures Needed(ResolveTable(t, first)) == 0
    ensures ResolveTable(ResolveTable(t, first), second) == ResolveTable(t, first)
  {
    var r := ResolveTable(t, first);
    forall k | 0 <= k < |r| ensures !NeedsDraw(r[k]) {
      if NeedsDraw(t[k]) {
        ResolvedDraw(t, first, k);
      }
    }
    SettledTableUnchanged(r, second);
  }

  /** Slot k either keeps its truthy seed, or the draw it takes for its falsy seed is not 0. */
  predicate UsedNonZero<Pic>(t: seq<Slot<Pic>>, first: seq<int>, k: nat)
    requires k < |t|
  {
    NeedsDraw(t[k]) ==> Needed(t[..k]) < |first| && first[Needed(t[..k])] != 0
  }

  /** Slot k ends a round with a truthy seed exactly when it kept one or took a nonzero draw. */
  lemma ReusedSlot<Pic>(t: seq<Slot<Pic>>, first: seq<int>, k: nat)
    requires Needed(t) <= |first| && k < |t|
    ensures !NeedsDraw(ResolveTable(t, first)[k]) <==> UsedNonZero(t, first, k)
  {
    if NeedsDraw(t[k]) {
      ResolvedDraw(t, first, k);
    }
  }

  /** Every slot of the table holds a truthy seed. */
  predicate Settled<Pic>(t: seq<Slot<Pic>>)
  {
    forall k :: 0 <= k < |t| ==> !NeedsDraw(t[k])
  }

  /** Every draw the round over t takes is nonzero. */
  predicate DrawsUsedNonZero<Pic>(t: seq<Slot<Pic>>, first: seq<int>)
  {
    forall k :: 0 <= k < |t| ==> UsedNonZero(t, first, k)
  }

  lemma SettledOnlyIfNonZero<Pic>(t: seq<Slot<Pic>>, first: seq<int>)
    requires Needed(t) <= |first| && Settled(ResolveTable(t, first))
    ensures DrawsUsedNonZero(t, first)
  {
    forall k | 0 <= k < |t| ensures UsedNonZero(t, first, k) {
      ReusedSlot(t, first, k);
    }
  }

  lemma SettledIfNonZero<Pic>(t: seq<Slot<Pic>>, first: seq<int>)
    requires Needed(t) <= |first| && DrawsUsedNonZero(t, first)
    ensures Settled(ResolveTable(t, first))
  {
    var r := ResolveTable(t, first);
    forall k | 0 <= k < |r| ensures !NeedsDraw(r[k]) {
      ReusedSlot(t, first, k);
    }
  }

  /**
   * After one round every seed is truthy, so that the next round reuses them
   * all, exactly when none of the draws that round actually took was 0.
   */
  lemma ReusedExactlyWhenDrawsNonZero<Pic>(t: seq<Slot<Pic>>, first: seq<int>)
    requires Needed(t) <= |first|
    ensures Settled(ResolveTable(t, first)) <==> DrawsUsedNonZero(t, first)
  {
    if Settled(ResolveTable(t, first)) {
      SettledOnlyIfNonZero(t, first);
    }
    if DrawsUsedNonZero(t, first) {
      SettledIfNonZero(t, first);
    }
  }

  /** The table a reset builds: n slots, each [None, None]. */
  function EmptyTable<Pic>(n: nat): (r: seq<Slot<Pic>>)
    ensures |r| == n
    ensures forall k :: 0 <= k < n ==> r[k] == Slot(None, None)
  {
    seq(n, _ => Slot(None, None))
  }

  lemma {:induction false} AllNeeded<Pic>(t: seq<Slot<Pic>>)
    requires forall k :: 0 <= k < |t| ==> NeedsDraw(t[k])
    ensures Needed(t) == |t|
  {
    if t != [] {
      AllNeeded(t[1..]);
    }
  }

  /**
   * After a reset every slot draws again: a round over the empty table
   * consumes n draws and gives slot k the k-th draw.
   */
  lemma FreshTableDrawsAll<Pic>(n: nat, draws: seq<int>)
    requires n <= |draws|
    ensures Needed(EmptyTable<Pic>(n)) == n
    ensures forall k :: 0 <= k < n ==> ResolveTable(EmptyTable<Pic>(n), draws)[k] == Slot(None, Some(draws[k]))
  {
    var t := EmptyTable<Pic>(n);
    AllNeeded(t);
    forall k | 0 <= k < n ensures ResolveTable(t, draws)[k] == Slot(None, Some(draws[k])) {
      ResolvedDraw(t, draws, k);
      AllNeeded(t[..k]);
    }
  }

  /** The seeds of a fully resolved table, in slot order. */
  function SeedsOf<Pic>(t: seq<Slot<Pic>>): (s: seq<int>)
    requires forall k :: 0 <= k < |t| ==> t[k].seed.Some?
    ensures |s| == |t|
    ensures forall k :: 0 <= k < |t| ==> t[k].seed == Some(s[k])
  {
    seq(|t|, k requires 0 <= k < |t| => t[k].seed.value)
  }
}
