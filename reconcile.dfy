/**
 * The transform loop of `run_etl` (backend/etl/run_etl.py:197-259): the colour table is
 * walked in row order; each row is joined to the indexed listing by (season, episode),
 * rows without a listing entry are skipped, and each joined row yields an episode record,
 * its colours and its subjects (both de-duplicated into first-seen dictionaries) and the
 * episode-colour and episode-subject edges.
 *
 * `ProcessRow` and `Transform` state what one pass of the loop and the whole loop compute;
 * `Reconcile` is the loop itself, proved to compute `Transform`; module `TransformFacts`
 * characterises `Transform` without reference to the loop.
 */
module Reconcile {
  import opened Wrappers
  import opened Text
  import opened Dates
  import opened Listing
  import opened Indexer
  import opened Registry

  /** One row of the colour table, with its two list columns already read. */
  datatype ColourRow = ColourRow(
    season: int, episode: int, youtubeSrc: string, imgSrc: string, numColors: int,
    colours: seq<string>, hexes: seq<string>)

  /** One row of the subject table: the episode code, the title, then the subject columns. */
  datatype SubjectRow = SubjectRow(code: string, title: string, flags: seq<(string, int)>)

  /** An entry of the override table. */
  datatype Annotation = Guest(name: string, relationship: string) | Special(description: string)

  /** An emitted episode record. */
  datatype Episode = Episode(
    id: int, title: string, season: int, episode: int, airDate: Option<Date>,
    youtubeSrc: string, imgSrc: string, numColors: int, extraInfo: Option<Annotation>)

  /** Why the whole run fails: a joined row for which no subject row matches. */
  datatype Fault = SubjectRowMissing(id: int, season: int, episode: int)

  /** Everything the transform produces. */
  datatype Tables = Tables(
    episodes: seq<Episode>,
    colours: Registry<string, string>,
    subjects: Registry<string, ()>,
    colourEdges: set<(int, nat)>,
    subjectEdges: set<(int, nat)>)

  const NoTables := Tables([], map[], map[], {}, {})

  /** The fixed override table of `extra_info`, keyed by episode id. */
  function SpecialEpisodes(): map<int, Annotation> {
    map[
      58 := Guest("Steve Ross", "son"),
      61 := Guest("Steve Ross", "son"),
      201 := Guest("Steve Ross", "son"),
      205 := Guest("Steve Ross", "son"),
      370 := Guest("Steve Ross", "son"),
      386 := Guest("Steve Ross", "son"),
      206 := Special("Two-part episode"),
      352 := Special("Christmas special"),
      401 := Special("Memorial episode")
    ]
  }

  /** `special_episodes.get(id, None)` */
  function ExtraInfo(id: int): Option<Annotation> {
    if id in SpecialEpisodes() then Some(SpecialEpisodes()[id]) else None
  }

  // Joining to the listing.

  predicate HasSlot(e: ListingEntry, season: int, episode: int) {
    e.slot == Some(Slot(season, episode))
  }

  /** `i` is the first listing entry carrying (season, episode). */
  ghost predicate FirstWithSlot(listing: seq<ListingEntry>, season: int, episode: int, i: int) {
    && 0 <= i < |listing| && HasSlot(listing[i], season, episode)
    && forall j :: 0 <= j < i ==> !HasSlot(listing[j], season, episode)
  }

  /** `next((ep for ep in episode_dates if ...), None)` */
  function FindEntry(listing: seq<ListingEntry>, season: int, episode: int): Option<ListingEntry> {
    if listing == [] then None
    else if HasSlot(listing[0], season, episode) then Some(listing[0])
    else FindEntry(listing[1..], season, episode)
  }

  /** The lookup returns the first listing entry carrying the pair. */
  lemma {:induction false} FindEntryFirst(listing: seq<ListingEntry>, season: int, episode: int, i: int)
    requires FirstWithSlot(listing, season, episode, i)
    ensures FindEntry(listing, season, episode) == Some(listing[i])
    decreases i
  {
    if i > 0 {
      assert !HasSlot(listing[0], season, episode);
      FindEntryFirst(listing[1..], season, episode, i - 1);
    }
  }

  /** A lookup that finds an entry finds the first one carrying the pair. */
  lemma {:induction false} FindEntrySome(listing: seq<ListingEntry>, season: int, episode: int)
    requires FindEntry(listing, season, episode).Some?
    ensures exists i :: FirstWithSlot(listing, season, episode, i) && FindEntry(listing, season, episode) == Some(listing[i])
    decreases |listing|
  {
    if !HasSlot(listing[0], season, episode) {
      FindEntrySome(listing[1..], season, episode);
      var i :| FirstWithSlot(listing[1..], season, episode, i) && FindEntry(listing[1..], season, episode) == Some(listing[1..][i]);
      assert FirstWithSlot(listing, season, episode, i + 1) by {
        forall j | 1 <= j < i + 1 ensures !HasSlot(listing[j], season, episode) {
          assert listing[j] == listing[1..][j - 1];
        }
      }
    } else {
      assert FirstWithSlot(listing, season, episode, 0);
    }
  }

  /** The lookup comes back empty exactly when no listing entry carries the pair. */
  lemma {:induction false} FindEntryNone(listing: seq<ListingEntry>, season: int, episode: int)
    ensures FindEntry(listing, season, episode).None? <==> forall i :: 0 <= i < |listing| ==> !HasSlot(listing[i], season, episode)
    decreases |listing|
  {
    if listing != [] {
      FindEntryNone(listing[1..], season, episode);
      if !HasSlot(listing[0], season, episode) {
        forall i | 0 < i < |listing| && !HasSlot(listing[1..][i - 1], season, episode)
          ensures !HasSlot(listing[i], season, episode)
        {
          assert listing[1..][i - 1] == listing[i];
        }
      }
    }
  }

  /**
   * On an indexed listing the join is positional: the pair (season, episode) finds the entry
   * at position (season - 1) * 13 + episode when that pair is one the indexer gives and the
   * listing is long enough, and nothing otherwise.
   */
  lemma IndexedJoin(listing: seq<ListingEntry>, season: int, episode: int)
    requires Indexed(listing)
    ensures FindEntry(listing, season, episode) ==
      if Assignable(Slot(season, episode)) && OrdinalOf(Slot(season, episode)) <= |listing|
      then Some(listing[OrdinalOf(Slot(season, episode)) - 1])
      else None
  {
    var slot := Slot(season, episode);
    if Assignable(slot) && OrdinalOf(slot) <= |listing| {
      var i := OrdinalOf(slot) - 1;
      SlotAtOrdinal(slot);
      forall j | 0 <= j < i ensures !HasSlot(listing[j], season, episode) {
        if HasSlot(listing[j], season, episode) {
          SlotAtInjective(j + 1, i + 1);
        }
      }
      FindEntryFirst(listing, season, episode, i);
    } else {
      forall i | 0 <= i < |listing| ensures !HasSlot(listing[i], season, episode) {
        SlotAtIsAssignable(i + 1);
      }
      FindEntryNone(listing, season, episode);
    }
  }

  // Finding the subject row.

  /** `f"S{season:02d}E{episode:02d}"` */
  function EpisodeCode(season: int, episode: int): (code: string)
    ensures 0 <= season < 100 && 0 <= episode < 100 ==>
      |code| == 6 && code[0] == 'S' && code[3] == 'E' && code[1..3] == Pad2(season) && code[4..] == Pad2(episode)
  {
    "S" + Pad2(season) + "E" + Pad2(episode)
  }

  /** For every season and episode the code is `S`, the padded season, `E`, the padded episode. */
  lemma EpisodeCodeFields(season: int, episode: int)
    ensures var code, n := EpisodeCode(season, episode), |Pad2(season)|;
      && |code| == n + 2 + |Pad2(episode)| && code[0] == 'S' && code[n + 1] == 'E'
      && code[1..n + 1] == Pad2(season) && code[n + 2..] == Pad2(episode)
  {
  }

  /** The subject row matches: its code contains the episode code, or its title is the listing title. */
  predicate SubjectMatches(row: SubjectRow, code: string, title: string) {
    Contains(row.code, code) || row.title == title
  }

  ghost predicate FirstSubjectMatch(rows: seq<SubjectRow>, code: string, title: string, i: int) {
    && 0 <= i < |rows| && SubjectMatches(rows[i], code, title)
    && forall j :: 0 <= j < i ==> !SubjectMatches(rows[j], code, title)
  }

  /** `subject_df[...contains(code) | (TITLE == title)].iloc[0]`, `None` when the selection is empty. */
  function FindSubjectRow(rows: seq<SubjectRow>, code: string, title: string): Option<SubjectRow> {
    if rows == [] then None
    else if SubjectMatches(rows[0], code, title) then Some(rows[0])
    else FindSubjectRow(rows[1..], code, title)
  }

  /** The lookup returns the first subject row, in file order, that matches. */
  lemma {:induction false} FindSubjectRowFirst(rows: seq<SubjectRow>, code: string, title: string, i: int)
    requires FirstSubjectMatch(rows, code, title, i)
    ensures FindSubjectRow(rows, code, title) == Some(rows[i])
    decreases i
  {
    if i > 0 {
      assert !SubjectMatches(rows[0], code, title);
      FindSubjectRowFirst(rows[1..], code, title, i - 1);
    }
  }

  /** The lookup comes back empty exactly when no subject row matches. */
  lemma {:induction false} FindSubjectRowNone(rows: seq<SubjectRow>, code: string, title: string)
    ensures FindSubjectRow(rows, code, title).None? <==> forall i :: 0 <= i < |rows| ==> !SubjectMatches(rows[i], code, title)
    decreases |rows|
  {
    if rows != [] {
      FindSubjectRowNone(rows[1..], code, title);
      if !SubjectMatches(rows[0], code, title) {
        forall i | 0 < i < |rows| && !SubjectMatches(rows[1..][i - 1], code, title)
          ensures !SubjectMatches(rows[i], code, title)
        {
          assert rows[1..][i - 1] == rows[i];
        }
      }
    }
  }

  // The sightings of one row.

  function Min(a: int, b: int): int {
    if a <= b then a else b
  }

  /** `zip(color_names, color_hexes)` with both sides stripped, as (hex, name) sightings. */
  function ColourPairs(names: seq<string>, hexes: seq<string>): (r: seq<(string, string)>)
    ensures |r| == Min(|names|, |hexes|)
    ensures forall j :: 0 <= j < |r| ==> r[j] == (Strip(hexes[j]), Strip(names[j]))
  {
    seq(Min(|names|, |hexes|), j requires 0 <= j < Min(|names|, |hexes|) => (Strip(hexes[j]), Strip(names[j])))
  }

  /** `subject_name.strip().replace('_', ' ').title()` */
  function NormaliseSubject(column: string): string {
    Title(ReplaceChar(Strip(column), '_', ' '))
  }

  /** A normalised name holds no underscore and is already in title case. */
  lemma NormaliseSubjectShape(column: string)
    ensures |NormaliseSubject(column)| == |Strip(column)|
    ensures forall i :: 0 <= i < |NormaliseSubject(column)| ==> NormaliseSubject(column)[i] != '_'
    ensures Title(NormaliseSubject(column)) == NormaliseSubject(column)
  {
    var r := ReplaceChar(Strip(column), '_', ' ');
    forall i | 0 <= i < |r| ensures Title(r)[i] != '_' {
      TitleKeepsShape(r, i);
    }
    TitleIdempotent(r);
  }

  /**
   * A column name without surrounding white space is normalised character by character:
   * `_` becomes a space, and each letter is upper-cased after a non-letter and lower-cased
   * after a letter.
   */
  lemma NormaliseUnpadded(column: string, r: string)
    requires column == [] || (!IsSpace(column[0]) && !IsSpace(column[|column| - 1]))
    requires |r| == |column|
    requires forall i {:trigger r[i]} :: 0 <= i < |column| ==>
      r[i] == if i > 0 && IsLetter(ReplaceChar(column, '_', ' ')[i - 1])
              then Lower(ReplaceChar(column, '_', ' ')[i])
              else Upper(ReplaceChar(column, '_', ' ')[i])
    ensures NormaliseSubject(column) == r
  {
    var s := ReplaceChar(column, '_', ' ');
    assert Title(s) == r by {
      forall i | 0 <= i < |s| ensures r[i] == if i > 0 && IsLetter(s[i - 1]) then Lower(s[i]) else Upper(s[i]) {
        assert 0 <= i < |column|;
      }
      TitleEach(s, r);
    }
    StripUnchanged(column);
  }

  /** A subject column in capitals is normalised to one capitalised word. */
  lemma NormaliseSubjectCapitals()
    ensures NormaliseSubject("OCEAN") == "Ocean"
  {
    NormaliseUnpadded("OCEAN", "Ocean");
  }

  /** The normalised names of the subject columns whose value is 1, in column order. */
  function SubjectNames(flags: seq<(string, int)>): seq<(string, ())>
    decreases |flags|
  {
    if flags == [] then []
    else
      var (column, value) := flags[|flags| - 1];
      SubjectNames(flags[..|flags| - 1]) + if value == 1 then [(NormaliseSubject(column), ())] else []
  }

  // One pass of the loop, and the whole loop.

  /** The record a joined row yields. */
  function EpisodeFor(row: ColourRow, id: int, info: ListingEntry): Episode {
    Episode(id, info.title, row.season, row.episode, info.airDate, row.youtubeSrc, row.imgSrc, row.numColors, ExtraInfo(id))
  }

  /** The loop body for the row whose episode id is `id`. */
  function ProcessRow(t: Tables, listing: seq<ListingEntry>, subjectRows: seq<SubjectRow>, row: ColourRow, id: int): Result<Tables, Fault> {
    match FindEntry(listing, row.season, row.episode)
    case None => Ok(t)
    case Some(info) =>
      var (colours, colourEdges) := Link(t.colours, t.colourEdges, id, ColourPairs(row.colours, row.hexes));
      match FindSubjectRow(subjectRows, EpisodeCode(row.season, row.episode), info.title)
      case None => Err(SubjectRowMissing(id, row.season, row.episode))
      case Some(subjectRow) =>
        var (subjects, subjectEdges) := Link(t.subjects, t.subjectEdges, id, SubjectNames(subjectRow.flags));
        Ok(Tables(t.episodes + [EpisodeFor(row, id, info)], colours, subjects, colourEdges, subjectEdges))
  }

  /** One pass fails exactly when its row joins the listing but no subject row matches it. */
  lemma ProcessRowFails(t: Tables, listing: seq<ListingEntry>, subjectRows: seq<SubjectRow>, row: ColourRow, id: int)
    ensures ProcessRow(t, listing, subjectRows, row, id).Err? <==>
      && FindEntry(listing, row.season, row.episode).Some?
      && FindSubjectRow(subjectRows, EpisodeCode(row.season, row.episode), FindEntry(listing, row.season, row.episode).value.title).None?
  {
  }

  /** The loop over the colour rows; the episode id of a row is its 1-based position. */
  function Transform(listing: seq<ListingEntry>, subjectRows: seq<SubjectRow>, rows: seq<ColourRow>): Result<Tables, Fault>
    decreases |rows|
  {
    if rows == [] then Ok(NoTables)
    else
      match Transform(listing, subjectRows, rows[..|rows| - 1])
      case Err(f) => Err(f)
      case Ok(t) => ProcessRow(t, listing, subjectRows, rows[|rows| - 1], |rows|)
  }

  /** A failure stays a failure whatever rows follow. */
  lemma {:induction false} TransformErrPersists(listing: seq<ListingEntry>, subjectRows: seq<SubjectRow>, rows: seq<ColourRow>, n: nat)
    requires n <= |rows| && Transform(listing, subjectRows, rows[..n]).Err?
    ensures Transform(listing, subjectRows, rows) == Transform(listing, subjectRows, rows[..n])
    decreases |rows| - n
  {
    if n < |rows| {
      assert rows[..n + 1][..n] == rows[..n];
      TransformErrPersists(listing, subjectRows, rows, n + 1);
    } else {
      assert rows[..n] == rows;
    }
  }

  /** The colour loop of one joined row: stores new hex codes and records the row's colour edges. */
  method RecordColours(allColours: Registry<string, string>, colourEdges: set<(int, nat)>, id: int, row: ColourRow)
    returns (colours: Registry<string, string>, edges: set<(int, nat)>)
    ensures (colours, edges) == Link(allColours, colourEdges, id, ColourPairs(row.colours, row.hexes))
  {
    var pairs := ColourPairs(row.colours, row.hexes);
    colours, edges := allColours, colourEdges;
    var j := 0;
    while j < Min(|row.colours|, |row.hexes|)
      invariant 0 <= j <= |pairs|
      invariant (colours, edges) == Link(allColours, colourEdges, id, pairs[..j])
    {
      LinkPrefix(allColours, colourEdges, id, pairs, j);
      var (hex, name) := pairs[j];
      if hex !in colours {
        colours := colours[hex := Entry(|colours| + 1, name)];
      }
      edges := edges + {(id, colours[hex].id)};
      j := j + 1;
    }
    assert pairs[..|pairs|] == pairs;
  }

  /** The subject loop of one joined row: stores new subject names and records the row's subject edges. */
  method RecordSubjects(allSubjects: Registry<string, ()>, subjectEdges: set<(int, nat)>, id: int, flags: seq<(string, int)>)
    returns (subjects: Registry<string, ()>, edges: set<(int, nat)>)
    ensures (subjects, edges) == Link(allSubjects, subjectEdges, id, SubjectNames(flags))
  {
    subjects, edges := allSubjects, subjectEdges;
    var k := 0;
    while k < |flags|
      invariant 0 <= k <= |flags|
      invariant (subjects, edges) == Link(allSubjects, subjectEdges, id, SubjectNames(flags[..k]))
    {
      assert flags[..k + 1][..k] == flags[..k];
      var (column, value) := flags[k];
      if value != 1 {
        assert SubjectNames(flags[..k + 1]) == SubjectNames(flags[..k]);
      } else {
        var name := NormaliseSubject(column);
        assert SubjectNames(flags[..k + 1]) == SubjectNames(flags[..k]) + [(name, ())];
        LinkSnoc(allSubjects, subjectEdges, id, SubjectNames(flags[..k]), name, ());
        if name !in subjects {
          subjects := subjects[name := Entry(|subjects| + 1, ())];
        }
        edges := edges + {(id, subjects[name].id)};
      }
      k := k + 1;
    }
    assert flags[..k] == flags;
  }

  /** One more row is one more pass of the loop body. */
  lemma TransformStep(listing: seq<ListingEntry>, subjectRows: seq<SubjectRow>, rows: seq<ColourRow>, i: int, t: Tables)
    requires 0 <= i < |rows| && Transform(listing, subjectRows, rows[..i]) == Ok(t)
    ensures Transform(listing, subjectRows, rows[..i + 1]) == ProcessRow(t, listing, subjectRows, rows[i], i + 1)
  {
    assert rows[..i + 1][..i] == rows[..i];
  }

  /** The transform loop of `run_etl`. */
  method Reconcile(listing: seq<ListingEntry>, subjectRows: seq<SubjectRow>, colourRows: seq<ColourRow>)
    returns (r: Result<Tables, Fault>)
    ensures r == Transform(listing, subjectRows, colourRows)
  {
    var processed: seq<Episode> := [];
    var allColours: Registry<string, string> := map[];
    var allSubjects: Registry<string, ()> := map[];
    var colourEdges: set<(int, nat)> := {};
    var subjectEdges: set<(int, nat)> := {};
    var i := 0;
    while i < |colourRows|
      invariant 0 <= i <= |colourRows|
      invariant Transform(listing, subjectRows, colourRows[..i]) == Ok(Tables(processed, allColours, allSubjects, colourEdges, subjectEdges))
    {
      var row := colourRows[i];
      var id := i + 1;
      TransformStep(listing, subjectRows, colourRows, i, Tables(processed, allColours, allSubjects, colourEdges, subjectEdges));
      var info := FindEntry(listing, row.season, row.episode);
      if info.None? {
        i := i + 1;
        continue;
      }
      processed := processed + [EpisodeFor(row, id, info.value)];
      allColours, colourEdges := RecordColours(allColours, colourEdges, id, row);
      var subjectRow := FindSubjectRow(subjectRows, EpisodeCode(row.season, row.episode), info.value.title);
      if subjectRow.None? {
        r := Err(SubjectRowMissing(id, row.season, row.episode));
        TransformErrPersists(listing, subjectRows, colourRows, i + 1);
        return;
      }
      allSubjects, subjectEdges := RecordSubjects(allSubjects, subjectEdges, id, subjectRow.value.flags);
      i := i + 1;
    }
    assert colourRows[..i] == colourRows;
    r := Ok(Tables(processed, allColours, allSubjects, colourEdges, subjectEdges));
  }
}
