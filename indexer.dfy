/**
 * The ordinal indexer (backend/etl/run_etl.py:193-195): the listing is cut into seasons
 * of thirteen episodes in file order, and each record is given its (season, episode).
 */
module Indexer {
  import opened Wrappers
  import opened Listing

  const EpisodesPerSeason := 13

  /** The pair given to the record at 1-based position `i`. */
  function SlotAt(i: int): Slot {
    Slot((i - 1) / EpisodesPerSeason + 1, (i - 1) % EpisodesPerSeason + 1)
  }

  /** The 1-based position a pair stands for. */
  function OrdinalOf(slot: Slot): int {
    (slot.season - 1) * EpisodesPerSeason + slot.episode
  }

  /** A pair some position is given: season at least 1 and episode within 1..13. */
  predicate Assignable(slot: Slot) {
    slot.season >= 1 && 1 <= slot.episode <= EpisodesPerSeason
  }

  /** Every position from 1 on gets an assignable pair, and the pair gives the position back. */
  lemma SlotAtIsAssignable(i: int)
    requires i >= 1
    ensures Assignable(SlotAt(i)) && OrdinalOf(SlotAt(i)) == i
  {
  }

  /** Every assignable pair is given to exactly its own position. */
  lemma {:induction false} SlotAtOrdinal(slot: Slot)
    requires Assignable(slot)
    ensures OrdinalOf(slot) >= 1 && SlotAt(OrdinalOf(slot)) == slot
  {
    var i := OrdinalOf(slot) - 1;
    assert i == (slot.season - 1) * EpisodesPerSeason + (slot.episode - 1);
    DivModUnique(i, slot.season - 1, slot.episode - 1);
  }

  lemma DivModUnique(i: int, q: int, r: int)
    requires 0 <= r < EpisodesPerSeason && i == q * EpisodesPerSeason + r
    ensures i / EpisodesPerSeason == q && i % EpisodesPerSeason == r
  {
  }

  /** Two positions get the same pair only if they are the same position. */
  lemma SlotAtInjective(i: int, j: int)
    requires i >= 1 && j >= 1 && SlotAt(i) == SlotAt(j)
    ensures i == j
  {
    SlotAtIsAssignable(i);
    SlotAtIsAssignable(j);
  }

  /** The listing after indexing: record `i` (0-based) carries the pair of position `i + 1`. */
  ghost predicate Indexed(listing: seq<ListingEntry>) {
    forall i :: 0 <= i < |listing| ==> listing[i].slot == Some(SlotAt(i + 1))
  }

  /** The indexing loop: it sets the pair of every record in place and changes nothing else. */
  method AssignSlots(episodes: array<ListingEntry>)
    modifies episodes
    ensures forall i :: 0 <= i < episodes.Length ==> episodes[i] == old(episodes[i]).(slot := Some(SlotAt(i + 1)))
    ensures Indexed(episodes[..])
  {
    var i := 0;
    while i < episodes.Length
      invariant 0 <= i <= episodes.Length
      invariant forall j :: 0 <= j < i ==> episodes[j] == old(episodes[j]).(slot := Some(SlotAt(j + 1)))
      invariant forall j :: i <= j < episodes.Length ==> episodes[j] == old(episodes[j])
    {
      episodes[i] := episodes[i].(slot := Some(SlotAt(i + 1)));
      i := i + 1;
    }
  }
}
