/**
 * What the transform loop of `run_etl` (backend/etl/run_etl.py:217-259) computes, stated
 * without the loop: which rows are emitted and with which record, when the run fails and on
 * which row, and what the two dictionaries and the two edge sets hold at the end.
 */
module TransformFacts {
  import opened Wrappers
  import opened Listing
  import opened Registry
  import opened Reconcile

  /** The listing entry a colour row joins to, if any. */
  function Join(listing: seq<ListingEntry>, row: ColourRow): Option<ListingEntry> {
    FindEntry(listing, row.season, row.episode)
  }

  /** A colour row that joins to the listing but finds no subject row: the run fails on it. */
  predicate Unmatched(listing: seq<ListingEntry>, subjectRows: seq<SubjectRow>, row: ColourRow) {
    match Join(listing, row)
    case None => false
    case Some(info) => FindSubjectRow(subjectRows, EpisodeCode(row.season, row.episode), info.title).None?
  }

  /** Every joined row finds its subject row. */
  ghost predicate Faultless(listing: seq<ListingEntry>, subjectRows: seq<SubjectRow>, rows: seq<ColourRow>) {
    forall i :: 0 <= i < |rows| ==> !Unmatched(listing, subjectRows, rows[i])
  }

  /** Row `i` is the first row the run fails on. */
  ghost predicate FirstFault(listing: seq<ListingEntry>, subjectRows: seq<SubjectRow>, rows: seq<ColourRow>, i: int) {
    && 0 <= i < |rows| && Unmatched(listing, subjectRows, rows[i])
    && forall j :: 0 <= j < i ==> !Unmatched(listing, subjectRows, rows[j])
  }

  /** The records of the joined rows, in row order, each with its row's 1-based position as id. */
  function Emitted(listing: seq<ListingEntry>, rows: seq<ColourRow>): seq<Episode>
    decreases |rows|
  {
    if rows == [] then []
    else
      var row := rows[|rows| - 1];
      Emitted(listing, rows[..|rows| - 1]) +
        match Join(listing, row) case None => [] case Some(info) => [EpisodeFor(row, |rows|, info)]
  }

  /** The colour sightings of the joined rows, one batch per row, tagged with the row's id. */
  function ColourBatches(listing: seq<ListingEntry>, rows: seq<ColourRow>): seq<(int, seq<(string, string)>)>
    decreases |rows|
  {
    if rows == [] then []
    else
      var row := rows[|rows| - 1];
      ColourBatches(listing, rows[..|rows| - 1]) +
        if Join(listing, row).Some? then [(|rows|, ColourPairs(row.colours, row.hexes))] else []
  }

  /** The subject sightings of the joined rows that find a subject row, tagged with the row's id. */
  function SubjectBatches(listing: seq<ListingEntry>, subjectRows: seq<SubjectRow>, rows: seq<ColourRow>): seq<(int, seq<(string, ())>)>
    decreases |rows|
  {
    if rows == [] then []
    else
      var row := rows[|rows| - 1];
      SubjectBatches(listing, subjectRows, rows[..|rows| - 1]) +
        match Join(listing, row)
        case None => []
        case Some(info) =>
          match FindSubjectRow(subjectRows, EpisodeCode(row.season, row.episode), info.title)
          case None => []
          case Some(subjectRow) => [(|rows|, SubjectNames(subjectRow.flags))]
  }

  /** The tables the run ends with when no row fails. */
  function Expected(listing: seq<ListingEntry>, subjectRows: seq<SubjectRow>, rows: seq<ColourRow>): Tables {
    var (colours, colourEdges) := LinkAll(map[], {}, ColourBatches(listing, rows));
    var (subjects, subjectEdges) := LinkAll(map[], {}, SubjectBatches(listing, subjectRows, rows));
    Tables(Emitted(listing, rows), colours, subjects, colourEdges, subjectEdges)
  }

  // Skipping and failing.

  /** A row without a listing entry changes nothing: no record, no colour, no subject, no edge. */
  lemma SkippedRowChangesNothing(listing: seq<ListingEntry>, subjectRows: seq<SubjectRow>, rows: seq<ColourRow>, row: ColourRow)
    requires Join(listing, row).None?
    ensures Transform(listing, subjectRows, rows + [row]) == Transform(listing, subjectRows, rows)
  {
    assert (rows + [row])[..|rows|] == rows;
  }

  /** When every joined row finds its subject row the run succeeds with the expected tables. */
  lemma {:induction false} TransformFaultless(listing: seq<ListingEntry>, subjectRows: seq<SubjectRow>, rows: seq<ColourRow>)
    requires Faultless(listing, subjectRows, rows)
    ensures Transform(listing, subjectRows, rows) == Ok(Expected(listing, subjectRows, rows))
    decreases |rows|
  {
    if rows != [] {
      var pre := rows[..|rows| - 1];
      assert Faultless(listing, subjectRows, pre) by {
        forall i | 0 <= i < |pre| ensures !Unmatched(listing, subjectRows, pre[i]) {
          assert pre[i] == rows[i];
        }
      }
      TransformFaultless(listing, subjectRows, pre);
      var row := rows[|rows| - 1];
      assert !Unmatched(listing, subjectRows, row);
      match Join(listing, row)
      case None =>
        assert Emitted(listing, rows) == Emitted(listing, pre);
        assert ColourBatches(listing, rows) == ColourBatches(listing, pre);
        assert SubjectBatches(listing, subjectRows, rows) == SubjectBatches(listing, subjectRows, pre);
      case Some(info) =>
        var subjectRow := FindSubjectRow(subjectRows, EpisodeCode(row.season, row.episode), info.title).value;
        LinkAllSnoc(map[], {}, ColourBatches(listing, pre), (|rows|, ColourPairs(row.colours, row.hexes)));
        LinkAllSnoc(map[], {}, SubjectBatches(listing, subjectRows, pre), (|rows|, SubjectNames(subjectRow.flags)));
    }
  }

  /** A failing row makes the whole run fail, whatever rows come before or after it. */
  lemma UnmatchedFails(listing: seq<ListingEntry>, subjectRows: seq<SubjectRow>, rows: seq<ColourRow>, i: int)
    requires 0 <= i < |rows| && Unmatched(listing, subjectRows, rows[i])
    ensures Transform(listing, subjectRows, rows).Err?
  {
    var pre := rows[..i];
    match Transform(listing, subjectRows, pre)
    case Ok(t) =>
      TransformStep(listing, subjectRows, rows, i, t);
      ProcessRowFails(t, listing, subjectRows, rows[i], i + 1);
    case Err(_) =>
      assert rows[..i + 1][..i] == pre;
    TransformErrPersists(listing, subjectRows, rows, i + 1);
  }

  /** The run succeeds exactly when every joined row finds its subject row. */
  lemma TransformOkIffFaultless(listing: seq<ListingEntry>, subjectRows: seq<SubjectRow>, rows: seq<ColourRow>)
    ensures Transform(listing, subjectRows, rows).Ok? <==> Faultless(listing, subjectRows, rows)
  {
    forall i | 0 <= i < |rows| && Unmatched(listing, subjectRows, rows[i])
      ensures Transform(listing, subjectRows, rows).Err?
    {
      UnmatchedFails(listing, subjectRows, rows, i);
    }
    if Faultless(listing, subjectRows, rows) {
      TransformFaultless(listing, subjectRows, rows);
    }
  }

  /** The run fails on its first failing row, with that row's id and (season, episode). */
  lemma TransformFirstFault(listing: seq<ListingEntry>, subjectRows: seq<SubjectRow>, rows: seq<ColourRow>, i: int)
    requires FirstFault(listing, subjectRows, rows, i)
    ensures Transform(listing, subjectRows, rows) == Err(SubjectRowMissing(i + 1, rows[i].season, rows[i].episode))
  {
    var pre := rows[..i];
    assert Faultless(listing, subjectRows, pre) by {
      forall j | 0 <= j < |pre| ensures !Unmatched(listing, subjectRows, pre[j]) {
        assert pre[j] == rows[j];
      }
    }
    TransformFaultless(listing, subjectRows, pre);
    assert rows[..i + 1][..i] == pre;
    assert rows[..i + 1][i] == rows[i];
    TransformErrPersists(listing, subjectRows, rows, i + 1);
  }

  /** A run that fails does so on its first failing row. */
  lemma {:induction false} TransformErrFirstFault(listing: seq<ListingEntry>, subjectRows: seq<SubjectRow>, rows: seq<ColourRow>)
    requires Transform(listing, subjectRows, rows).Err?
    ensures exists i :: (FirstFault(listing, subjectRows, rows, i) &&
      Transform(listing, subjectRows, rows) == Err(SubjectRowMissing(i + 1, rows[i].season, rows[i].episode)))
    decreases |rows|
  {
    var pre := rows[..|rows| - 1];
    if Transform(listing, subjectRows, pre).Err? {
      TransformErrFirstFault(listing, subjectRows, pre);
      var i :| FirstFault(listing, subjectRows, pre, i);
      assert FirstFault(listing, subjectRows, rows, i) by {
        forall j | 0 <= j <= i ensures rows[j] == pre[j] {
        }
      }
      TransformFirstFault(listing, subjectRows, rows, i);
    } else {
      TransformOkIffFaultless(listing, subjectRows, pre);
      var i := |rows| - 1;
      assert FirstFault(listing, subjectRows, rows, i) by {
        forall j | 0 <= j < i ensures !Unmatched(listing, subjectRows, rows[j]) {
          assert rows[j] == pre[j];
        }
      }
      TransformFirstFault(listing, subjectRows, rows, i);
    }
  }

  // The emitted records.

  /**
   * Each emitted record comes from a joined row: its id is the row's 1-based position, and
   * it is the record `EpisodeFor` builds from that row and its listing entry. Ids increase
   * strictly along the output, so no id is emitted twice.
   */
  lemma {:induction false} EmittedRecords(listing: seq<ListingEntry>, rows: seq<ColourRow>)
    ensures forall k :: 0 <= k < |Emitted(listing, rows)| ==>
      var e := Emitted(listing, rows)[k];
      && 1 <= e.id <= |rows|
      && Join(listing, rows[e.id - 1]).Some?
      && e == EpisodeFor(rows[e.id - 1], e.id, Join(listing, rows[e.id - 1]).value)
    ensures forall a, b :: 0 <= a < b < |Emitted(listing, rows)| ==> Emitted(listing, rows)[a].id < Emitted(listing, rows)[b].id
    decreases |rows|
  {
    if rows != [] {
      var pre := rows[..|rows| - 1];
      EmittedRecords(listing, pre);
      var es := Emitted(listing, pre);
      forall k | 0 <= k < |es| ensures Emitted(listing, rows)[k] == es[k] && rows[es[k].id - 1] == pre[es[k].id - 1] {
      }
    }
  }

  /** Every joined row is emitted. */
  lemma {:induction false} EmittedComplete(listing: seq<ListingEntry>, rows: seq<ColourRow>, i: int)
    requires 0 <= i < |rows| && Join(listing, rows[i]).Some?
    ensures exists k :: 0 <= k < |Emitted(listing, rows)| && Emitted(listing, rows)[k].id == i + 1
    decreases |rows|
  {
    var pre := rows[..|rows| - 1];
    if i < |pre| {
      assert pre[i] == rows[i];
      EmittedComplete(listing, pre, i);
      var k :| 0 <= k < |Emitted(listing, pre)| && Emitted(listing, pre)[k].id == i + 1;
      assert Emitted(listing, rows)[k] == Emitted(listing, pre)[k];
    } else {
      assert Emitted(listing, rows)[|Emitted(listing, pre)|].id == i + 1;
    }
  }

  /**
   * An emitted record takes its title and air date from the first listing entry carrying
   * its (season, episode), and its extra information from the override table.
   */
  lemma EmittedFromFirstEntry(listing: seq<ListingEntry>, rows: seq<ColourRow>, k: int)
    requires 0 <= k < |Emitted(listing, rows)|
    ensures var e := Emitted(listing, rows)[k];
      && e.extraInfo == ExtraInfo(e.id)
      && exists j :: FirstWithSlot(listing, e.season, e.episode, j) && e.title == listing[j].title && e.airDate == listing[j].airDate
  {
    EmittedRecords(listing, rows);
    var e := Emitted(listing, rows)[k];
    FindEntrySome(listing, e.season, e.episode);
  }

  /** The colour batches run alongside the records: one per record, with the record's id and its row's pairs. */
  lemma {:induction false} ColourBatchesOfEmitted(listing: seq<ListingEntry>, rows: seq<ColourRow>)
    ensures |ColourBatches(listing, rows)| == |Emitted(listing, rows)|
    ensures forall k :: 0 <= k < |ColourBatches(listing, rows)| ==>
      var id := Emitted(listing, rows)[k].id;
      1 <= id <= |rows| && ColourBatches(listing, rows)[k] == (id, ColourPairs(rows[id - 1].colours, rows[id - 1].hexes))
    decreases |rows|
  {
    if rows != [] {
      var pre := rows[..|rows| - 1];
      ColourBatchesOfEmitted(listing, pre);
      EmittedRecords(listing, pre);
      forall k | 0 <= k < |ColourBatches(listing, pre)|
        ensures ColourBatches(listing, rows)[k] == ColourBatches(listing, pre)[k]
        ensures Emitted(listing, rows)[k] == Emitted(listing, pre)[k]
        ensures rows[Emitted(listing, pre)[k].id - 1] == pre[Emitted(listing, pre)[k].id - 1]
      {
      }
    }
  }

  /** The colour batches carry the emitted records' ids, in order. */
  lemma {:induction false} ColourBatchIds(listing: seq<ListingEntry>, rows: seq<ColourRow>)
    ensures |ColourBatches(listing, rows)| == |Emitted(listing, rows)|
    ensures forall k :: 0 <= k < |ColourBatches(listing, rows)| ==> ColourBatches(listing, rows)[k].0 == Emitted(listing, rows)[k].id
    decreases |rows|
  {
    if rows != [] {
      var pre := rows[..|rows| - 1];
      ColourBatchIds(listing, pre);
      forall k | 0 <= k < |ColourBatches(listing, pre)|
        ensures ColourBatches(listing, rows)[k] == ColourBatches(listing, pre)[k]
        ensures Emitted(listing, rows)[k] == Emitted(listing, pre)[k]
      {
      }
    }
  }

  /** When no row fails, the subject batches run alongside the records too, one per record. */
  lemma {:induction false} SubjectBatchesOfEmitted(listing: seq<ListingEntry>, subjectRows: seq<SubjectRow>, rows: seq<ColourRow>)
    requires Faultless(listing, subjectRows, rows)
    ensures |SubjectBatches(listing, subjectRows, rows)| == |Emitted(listing, rows)|
    ensures forall k :: 0 <= k < |SubjectBatches(listing, subjectRows, rows)| ==>
      SubjectBatches(listing, subjectRows, rows)[k].0 == Emitted(listing, rows)[k].id
    decreases |rows|
  {
    if rows != [] {
      var pre := rows[..|rows| - 1];
      assert Faultless(listing, subjectRows, pre) by {
        forall i | 0 <= i < |pre| ensures !Unmatched(listing, subjectRows, pre[i]) {
          assert pre[i] == rows[i];
        }
      }
      SubjectBatchesOfEmitted(listing, subjectRows, pre);
      assert !Unmatched(listing, subjectRows, rows[|rows| - 1]);
      forall k | 0 <= k < |SubjectBatches(listing, subjectRows, pre)|
        ensures SubjectBatches(listing, subjectRows, rows)[k] == SubjectBatches(listing, subjectRows, pre)[k]
        ensures Emitted(listing, rows)[k] == Emitted(listing, pre)[k]
      {
      }
    }
  }

  // The tables of a successful run.

  /**
   * A successful run emits exactly the joined rows' records; its colour dictionary is every
   * colour sighting registered in order and its subject dictionary every subject sighting;
   * its edge sets hold, for each record, the edges to the stored ids of what its row sights.
   */
  lemma TransformTables(listing: seq<ListingEntry>, subjectRows: seq<SubjectRow>, rows: seq<ColourRow>, t: Tables)
    requires Transform(listing, subjectRows, rows) == Ok(t)
    ensures t.episodes == Emitted(listing, rows)
    ensures t.colours == RegisterAll(map[], Flatten(ColourBatches(listing, rows)))
    ensures t.colourEdges == BatchEdges(t.colours, ColourBatches(listing, rows))
    ensures t.subjects == RegisterAll(map[], Flatten(SubjectBatches(listing, subjectRows, rows)))
    ensures t.subjectEdges == BatchEdges(t.subjects, SubjectBatches(listing, subjectRows, rows))
  {
    TransformOkIffFaultless(listing, subjectRows, rows);
    TransformFaultless(listing, subjectRows, rows);
    LinkAllRegistersAll(map[], {}, ColourBatches(listing, rows));
    LinkAllRegistersAll(map[], {}, SubjectBatches(listing, subjectRows, rows));
  }

  /**
   * Both dictionaries of a successful run hold exactly the keys sighted, with ids 1..n given
   * in first-seen order; a colour keeps the name of its first sighting.
   */
  lemma TransformDictionaries(listing: seq<ListingEntry>, subjectRows: seq<SubjectRow>, rows: seq<ColourRow>, t: Tables)
    requires Transform(listing, subjectRows, rows) == Ok(t)
    ensures Dense(t.colours) && t.colours.Keys == Sighted(Flatten(ColourBatches(listing, rows)))
    ensures FirstPayloads(t.colours, Flatten(ColourBatches(listing, rows)))
    ensures FirstSeenOrder(t.colours, Flatten(ColourBatches(listing, rows)))
    ensures Dense(t.subjects) && t.subjects.Keys == Sighted(Flatten(SubjectBatches(listing, subjectRows, rows)))
    ensures FirstSeenOrder(t.subjects, Flatten(SubjectBatches(listing, subjectRows, rows)))
  {
    TransformTables(listing, subjectRows, rows, t);
    var cs := Flatten(ColourBatches(listing, rows));
    var ss := Flatten(SubjectBatches(listing, subjectRows, rows));
    RegisterAllDense(cs);
    RegisterAllFirstPayloads(cs);
    RegisterAllFirstSeenOrder(cs);
    RegisterAllDense(ss);
    RegisterAllFirstSeenOrder(ss);
  }

  /**
   * Referential integrity of the colour edges: every edge joins an emitted record's id to an
   * id stored in the colour dictionary, and every colour a record's row sights is stored and
   * linked to that record.
   */
  lemma ColourEdgesIntegrity(listing: seq<ListingEntry>, rows: seq<ColourRow>)
    ensures var m := RegisterAll(map[], Flatten(ColourBatches(listing, rows)));
      forall e :: e in BatchEdges(m, ColourBatches(listing, rows)) ==>
        HasId(m, e.1) && exists k :: 0 <= k < |Emitted(listing, rows)| && Emitted(listing, rows)[k].id == e.0
    ensures var m := RegisterAll(map[], Flatten(ColourBatches(listing, rows)));
      forall k, j :: 0 <= k < |ColourBatches(listing, rows)| && 0 <= j < |ColourBatches(listing, rows)[k].1| ==>
        var hex := ColourBatches(listing, rows)[k].1[j].0;
        hex in m && (ColourBatches(listing, rows)[k].0, m[hex].id) in BatchEdges(m, ColourBatches(listing, rows))
  {
    var cb := ColourBatches(listing, rows);
    ColourBatchIds(listing, rows);
    RunEdges(cb);
    var m := RegisterAll(map[], Flatten(cb));
    forall e | e in BatchEdges(m, cb) ensures exists k :: 0 <= k < |Emitted(listing, rows)| && Emitted(listing, rows)[k].id == e.0 {
      var b :| 0 <= b < |cb| && cb[b].0 == e.0;
      assert Emitted(listing, rows)[b].id == e.0;
    }
  }

  /**
   * Referential integrity of the subject edges when no row fails: every edge joins an emitted
   * record's id to an id stored in the subject dictionary, and every subject a record's
   * subject row names is stored and linked to that record.
   */
  lemma SubjectEdgesIntegrity(listing: seq<ListingEntry>, subjectRows: seq<SubjectRow>, rows: seq<ColourRow>)
    requires Faultless(listing, subjectRows, rows)
    ensures var m := RegisterAll(map[], Flatten(SubjectBatches(listing, subjectRows, rows)));
      forall e :: e in BatchEdges(m, SubjectBatches(listing, subjectRows, rows)) ==>
        HasId(m, e.1) && exists k :: 0 <= k < |Emitted(listing, rows)| && Emitted(listing, rows)[k].id == e.0
    ensures var m := RegisterAll(map[], Flatten(SubjectBatches(listing, subjectRows, rows)));
      forall k, j :: 0 <= k < |SubjectBatches(listing, subjectRows, rows)| && 0 <= j < |SubjectBatches(listing, subjectRows, rows)[k].1| ==>
        var name := SubjectBatches(listing, subjectRows, rows)[k].1[j].0;
        name in m && (SubjectBatches(listing, subjectRows, rows)[k].0, m[name].id) in BatchEdges(m, SubjectBatches(listing, subjectRows, rows))
  {
    var sb := SubjectBatches(listing, subjectRows, rows);
    SubjectBatchesOfEmitted(listing, subjectRows, rows);
    RunEdges(sb);
    var m := RegisterAll(map[], Flatten(sb));
    forall e | e in BatchEdges(m, sb) ensures exists k :: 0 <= k < |Emitted(listing, rows)| && Emitted(listing, rows)[k].id == e.0 {
      var b :| 0 <= b < |sb| && sb[b].0 == e.0;
      assert Emitted(listing, rows)[b].id == e.0;
    }
  }
}
