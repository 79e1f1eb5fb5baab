/**
 * The transform stage of `run_etl` end to end (backend/etl/run_etl.py:189-259): the
 * listing is read from its lines, indexed in place, and handed to the reconciliation loop.
 */
module Pipeline {
  import opened Wrappers
  import opened Listing
  import opened Indexer
  import opened Reconcile

  /** The listing after the indexer: record `i` (0-based) carries the pair of position `i + 1`. */
  function WithSlots(listing: seq<ListingEntry>): (r: seq<ListingEntry>)
    ensures |r| == |listing| && Indexed(r)
    ensures forall i :: 0 <= i < |r| ==> r[i].title == listing[i].title && r[i].airDate == listing[i].airDate && r[i].notes == listing[i].notes
  {
    seq(|listing|, i requires 0 <= i < |listing| => listing[i].(slot := Some(SlotAt(i + 1))))
  }

  /** Reading, indexing and reconciling, in the order `run_etl` does them. */
  method TransformStage(lines: seq<string>, subjectRows: seq<SubjectRow>, colourRows: seq<ColourRow>)
    returns (r: Result<Tables, Fault>)
    ensures r == Transform(WithSlots(ListingOf(lines)), subjectRows, colourRows)
  {
    var listing := ReadListing(lines);
    var episodes := new ListingEntry[|listing|](i requires 0 <= i < |listing| => listing[i]);
    AssignSlots(episodes);
    assert episodes[..] == WithSlots(listing);
    r := Reconcile.Reconcile(episodes[..], subjectRows, colourRows);
  }

  /**
   * A colour row for season `s`, episode `e` joins the record read from the
   * ((s - 1) * 13 + e)-th matching line of the listing, and nothing when there is no such line
   * or the pair is not one the indexer gives.
   */
  lemma JoinsOrdinalLine(lines: seq<string>, season: int, episode: int)
    ensures var listing := ListingOf(lines);
      var n := OrdinalOf(Slot(season, episode));
      FindEntry(WithSlots(listing), season, episode) ==
        if Assignable(Slot(season, episode)) && n <= |listing|
        then Some(listing[n - 1].(slot := Some(Slot(season, episode))))
        else None
  {
    var listing := ListingOf(lines);
    IndexedJoin(WithSlots(listing), season, episode);
    if Assignable(Slot(season, episode)) {
      SlotAtOrdinal(Slot(season, episode));
    }
  }
}
