/**
 * The listing-line reader `get_episode_data` (backend/etl/run_etl.py:129-151).
 *
 * Each line of the episode listing is stripped and matched, from its first character to
 * its end, against the pattern
 *     "TITLE"<spaces>(DATE)[<spaces>-<spaces>NOTES]
 * where TITLE and DATE are lazy (the shortest that lets the rest match, TITLE first),
 * NOTES is greedy, and none of the three may hold a line break. The matcher here is
 * written by hand; `Split` states the pattern declaratively and `MatchLineIsLeftmost`
 * shows the matcher picks the split a backtracking engine picks.
 */
module Listing {
  import opened Wrappers
  import opened Text
  import opened Dates

  /** The three groups of a successful match; `notes` is `None` when the optional group is absent. */
  datatype LineMatch = LineMatch(title: string, date: string, notes: Option<string>)

  /** A (season, episode) pair. */
  datatype Slot = Slot(season: int, episode: int)

  /**
   * One kept line of the listing. `slot` is the (season, episode) pair the ordinal
   * indexer later stores in the record; the reader leaves it unset.
   */
  datatype ListingEntry = ListingEntry(title: string, airDate: Option<Date>, notes: string, slot: Option<Slot>)

  predicate EndsInSpace(s: string) {
    s != [] && IsSpace(s[|s| - 1])
  }

  // The declarative pattern.

  /** `t` reads: spaces `t[..i]`, a dash at `i`, spaces `t[i + 1..j]`, then notes `t[j..]`. */
  predicate InTail(t: string, i: int, j: int) {
    && 1 <= i && i + 1 < j < |t|
    && AllSpace(t[..i]) && t[i] == '-' && AllSpace(t[i + 1..j]) && NoNewline(t[j..])
  }

  /** What may follow the closing parenthesis: nothing, or the notes group. */
  ghost predicate TailMatches(t: string) {
    t == [] || exists i, j :: InTail(t, i, j)
  }

  /** The title closes at `k` and the date opens at `p`: only spaces between the two. */
  predicate Opens(s: string, k: int, p: int) {
    0 <= k && k + 1 < p < |s| && AllSpace(s[k + 1..p]) && s[p] == '('
  }

  /** The date opened at `p` closes at `m` and what follows matches the tail. */
  ghost predicate Closes(s: string, p: int, m: int) {
    0 <= p && p + 1 < m < |s| && s[m] == ')' && NoNewline(s[p + 1..m]) && TailMatches(s[m + 1..])
  }

  /** The whole pattern matches `s` with title `s[1..k]` and date `s[p + 1..m]`. */
  ghost predicate Split(s: string, k: int, p: int, m: int) {
    && 1 < k < |s| && s[0] == '"' && s[k] == '"' && NoNewline(s[1..k])
    && Opens(s, k, p) && Closes(s, p, m)
  }

  /** The notes group read greedily from `t`: the last split point `j` that works. */
  ghost predicate GreedyNotes(t: string, notes: string) {
    exists i, j :: InTail(t, i, j) && notes == t[j..] && forall i', j' :: InTail(t, i', j') ==> j' <= j
  }

  // The matcher.

  /** The optional notes group and the end of the line, on what follows the closing parenthesis. */
  function TailNotes(t: string): Option<Option<string>> {
    if t == [] then Some(None)
    else
      var a := SpaceRun(t);
      if a == 0 || a == |t| || t[a] != '-' then None
      else
        var u := t[a + 1..];
        var b := SpaceRun(u);
        if b == 0 || b == |u| || !NoNewline(u[b..]) then None
        else Some(Some(u[b..]))
  }

  /** The first closing parenthesis at or after `m` that ends the date opened at `p`. */
  function DateSearch(s: string, p: nat, m: nat): (r: Option<nat>)
    ensures r.Some? ==> m <= r.value && p + 1 < r.value < |s| && s[r.value] == ')'
    decreases |s| - m
  {
    if m >= |s| then None
    else if p + 1 < m && s[m] == ')' && TailNotes(s[m + 1..]).Some? then Some(m)
    else if s[m] == '\n' then None
    else DateSearch(s, p, m + 1)
  }

  /** Where the date opens when the title closes at `k`: an opening parenthesis after one or more spaces. */
  function DateOpening(s: string, k: nat): (r: Option<nat>)
    requires k < |s|
    ensures r.Some? ==> k + 1 < r.value < |s| && s[r.value] == '('
  {
    var p := k + 1 + SpaceRun(s[k + 1..]);
    if p == k + 1 || p >= |s| || s[p] != '(' then None else Some(p)
  }

  /** Where the date opens and closes when the title closes at `k`, if the rest matches. */
  function CloseTitle(s: string, k: nat): (r: Option<(nat, nat)>)
    requires k < |s|
    ensures r.Some? ==> k + 1 < r.value.0 && r.value.0 + 1 < r.value.1 < |s|
  {
    match DateOpening(s, k)
    case None => None
    case Some(p) =>
      match DateSearch(s, p, p + 1)
      case None => None
      case Some(m) => Some((p, m))
  }

  /** The first closing quote at or after `k` that lets the rest of the line match. */
  function TitleSearch(s: string, k: nat): (r: Option<(nat, nat, nat)>)
    ensures r.Some? ==> k <= r.value.0 && r.value.0 + 1 < r.value.1 && r.value.1 + 1 < r.value.2 < |s|
    decreases |s| - k
  {
    if k >= |s| then None
    else if 1 < k && s[k] == '"' && CloseTitle(s, k).Some? then
      var (p, m) := CloseTitle(s, k).value;
      Some((k, p, m))
    else if s[k] == '\n' then None
    else TitleSearch(s, k + 1)
  }

  /** `pattern.match(s)` for the listing pattern. */
  function MatchLine(s: string): Option<LineMatch> {
    if s == [] || s[0] != '"' then None
    else
      match TitleSearch(s, 1)
      case None => None
      case Some((k, p, m)) =>
        // The search only stops where the tail reader accepts, so the notes are always there.
        match TailNotes(s[m + 1..])
        case None => None
        case Some(notes) => Some(LineMatch(s[1..k], s[p + 1..m], notes))
  }

  // The matcher against the pattern.

  lemma NoNewlineExtend(s: string, a: int, b: int)
    requires 0 <= a <= b < |s| && NoNewline(s[a..b]) && s[b] != '\n'
    ensures NoNewline(s[a..b + 1])
  {
    assert s[a..b + 1] == s[a..b] + [s[b]];
  }

  lemma NoNewlineWiden(s: string, a: int, b: int, c: int)
    requires 0 <= a <= b <= c <= |s| && NoNewline(s[a..c])
    ensures NoNewline(s[a..b])
  {
    assert forall i :: 0 <= i < b - a ==> s[a..b][i] == s[a..c][i];
  }

  /** The tail reader accepts exactly the tails the pattern accepts, and reads the notes greedily. */
  lemma {:induction false} TailNotesMatches(t: string)
    requires !EndsInSpace(t)
    ensures TailNotes(t).Some? <==> TailMatches(t)
    ensures TailNotes(t) == Some(None) <==> t == []
    ensures TailNotes(t).Some? && TailNotes(t).value.Some? ==> GreedyNotes(t, TailNotes(t).value.value)
  {
    if t != [] {
      var a := SpaceRun(t);
      // Any reading of the tail puts the dash right after the leading spaces.
      forall i, j | InTail(t, i, j) ensures i == a {
        SpaceRunAt(t, i);
      }
      if a != 0 && a != |t| && t[a] == '-' {
        var u := t[a + 1..];
        var b := SpaceRun(u);
        // ... and the notes no earlier than after the spaces that follow the dash.
        forall i, j | InTail(t, i, j) ensures j <= a + 1 + b && NoNewline(u[b..]) {
          assert u[..j - a - 1] == t[a + 1..j];
          SpaceRunAtLeast(u, j - a - 1);
          assert u[b..] == t[j..][a + 1 + b - j..];
        }
        if b != 0 && b != |u| && NoNewline(u[b..]) {
          assert t[a + 1..a + 1 + b] == u[..b];
          assert t[a + 1 + b..] == u[b..];
          assert InTail(t, a, a + 1 + b);
        }
      }
    }
  }

  lemma TailMatchesAfter(s: string, m: int)
    requires !EndsInSpace(s) && 0 <= m < |s|
    ensures TailNotes(s[m + 1..]).Some? <==> TailMatches(s[m + 1..])
  {
    assert s[m + 1..] != [] ==> s[m + 1..][|s[m + 1..]| - 1] == s[|s| - 1];
    TailNotesMatches(s[m + 1..]);
  }

  /** What the date search finds closes the date. */
  lemma {:induction false} DateSearchSound(s: string, p: nat, m: nat)
    requires !EndsInSpace(s) && p + 1 <= m <= |s| && NoNewline(s[p + 1..m])
    ensures DateSearch(s, p, m).Some? ==> Closes(s, p, DateSearch(s, p, m).value)
    decreases |s| - m
  {
    if m < |s| {
      DateSearchStep(s, p, m);
      if p + 1 < m && s[m] == ')' && TailNotes(s[m + 1..]).Some? {
        ClosesAt(s, p, m);
      } else if s[m] != '\n' {
        NoNewlineExtend(s, p + 1, m);
        DateSearchSound(s, p, m + 1);
      }
    }
  }

  /** One step of the date search: stop here, give up at a line break, or move on. */
  lemma DateSearchStep(s: string, p: nat, m: nat)
    requires m < |s|
    ensures p + 1 < m && s[m] == ')' && TailNotes(s[m + 1..]).Some? ==> DateSearch(s, p, m) == Some(m)
    ensures !(p + 1 < m && s[m] == ')' && TailNotes(s[m + 1..]).Some?) && s[m] != '\n' ==> DateSearch(s, p, m) == DateSearch(s, p, m + 1)
  {
  }

  /** A closing parenthesis the tail reader accepts closes the date. */
  lemma ClosesAt(s: string, p: nat, m: nat)
    requires !EndsInSpace(s) && p + 1 < m < |s| && s[m] == ')' && NoNewline(s[p + 1..m])
    requires TailNotes(s[m + 1..]).Some?
    ensures Closes(s, p, m)
  {
    TailMatchesAfter(s, m);
  }

  /** The date search stops no later than any closing parenthesis that ends a match. */
  lemma {:induction false} DateSearchLeast(s: string, p: nat, m: nat, m': int)
    requires !EndsInSpace(s) && Closes(s, p, m') && p + 1 <= m <= m' && NoNewline(s[p + 1..m])
    ensures DateSearch(s, p, m).Some? && DateSearch(s, p, m).value <= m'
    decreases |s| - m
  {
    if m == m' {
      TailMatchesAfter(s, m);
    } else if !(p + 1 < m && s[m] == ')' && TailNotes(s[m + 1..]).Some?) {
      assert s[p + 1..m'][m - p - 1] == s[m];
      NoNewlineExtend(s, p + 1, m);
      DateSearchLeast(s, p, m + 1, m');
    }
  }

  /** The date opens where the title closing at `k` lets it open, and nowhere else. */
  lemma DateOpeningIsOpens(s: string, k: nat, p: int)
    requires k < |s|
    ensures DateOpening(s, k) == Some(p) <==> Opens(s, k, p)
  {
    var n := SpaceRun(s[k + 1..]);
    if Opens(s, k, p) {
      assert s[k + 1..][..p - k - 1] == s[k + 1..p];
      SpaceRunAt(s[k + 1..], p - k - 1);
    }
    if DateOpening(s, k) == Some(p) {
      assert s[k + 1..p] == s[k + 1..][..n];
    }
  }

  /** What closing the title at `k` finds is a date that opens and closes there. */
  lemma {:induction false} CloseTitleSound(s: string, k: nat)
    requires !EndsInSpace(s) && k < |s|
    ensures CloseTitle(s, k).Some? ==> Opens(s, k, CloseTitle(s, k).value.0) && Closes(s, CloseTitle(s, k).value.0, CloseTitle(s, k).value.1)
  {
    if CloseTitle(s, k).Some? {
      CloseTitleFound(s, k);
      var p := DateOpening(s, k).value;
      DateOpeningIsOpens(s, k, p);
      assert NoNewline(s[p + 1..p + 1]);
      DateSearchSound(s, p, p + 1);
    }
  }

  /** A title closing at `k` that closes the date too names the date's opening and the search's result. */
  lemma CloseTitleFound(s: string, k: nat)
    requires k < |s| && CloseTitle(s, k).Some?
    ensures DateOpening(s, k).Some?
    ensures var p := DateOpening(s, k).value;
      && DateSearch(s, p, p + 1).Some?
      && CloseTitle(s, k).value == (p, DateSearch(s, p, p + 1).value)
  {
  }

  /** Closing the title at `k` finds the date opening of every match and its first closing. */
  lemma {:induction false} CloseTitleLeast(s: string, k: nat, p: int, m: int)
    requires !EndsInSpace(s) && k < |s| && Opens(s, k, p) && Closes(s, p, m)
    ensures CloseTitle(s, k).Some? && CloseTitle(s, k).value.0 == p && CloseTitle(s, k).value.1 <= m
  {
    DateOpeningIsOpens(s, k, p);
    assert NoNewline(s[p + 1..p + 1]);
    DateSearchLeast(s, p, p + 1, m);
  }

  /** What the title search finds at or after `k` is a split of the line. */
  lemma {:induction false} TitleSearchSound(s: string, k: nat)
    requires !EndsInSpace(s) && s != [] && s[0] == '"' && 1 <= k <= |s| && NoNewline(s[1..k])
    ensures TitleSearch(s, k).Some? ==> Split(s, TitleSearch(s, k).value.0, TitleSearch(s, k).value.1, TitleSearch(s, k).value.2)
    decreases |s| - k
  {
    if k < |s| {
      TitleSearchStep(s, k);
      if 1 < k && s[k] == '"' && CloseTitle(s, k).Some? {
        CloseTitleSound(s, k);
      } else if s[k] != '\n' {
        NoNewlineExtend(s, 1, k);
        TitleSearchSound(s, k + 1);
      }
    }
  }

  /** One step of the title search: stop here with the date, give up at a line break, or move on. */
  lemma TitleSearchStep(s: string, k: nat)
    requires k < |s|
    ensures 1 < k && s[k] == '"' && CloseTitle(s, k).Some? ==>
      TitleSearch(s, k) == Some((k, CloseTitle(s, k).value.0, CloseTitle(s, k).value.1))
    ensures !(1 < k && s[k] == '"' && CloseTitle(s, k).Some?) && s[k] != '\n' ==> TitleSearch(s, k) == TitleSearch(s, k + 1)
  {
  }

  /** The title search finds a split no later than any split whose title closes at or after `k`. */
  lemma {:induction false} TitleSearchLeast(s: string, k: nat, k': int, p: int, m: int)
    requires !EndsInSpace(s) && Split(s, k', p, m) && 1 <= k <= k' && NoNewline(s[1..k])
    ensures TitleSearch(s, k).Some? && Earlier(TitleSearch(s, k).value, k', p, m)
    decreases |s| - k
  {
    if k == k' {
      CloseTitleLeast(s, k, p, m);
    } else if !(1 < k && s[k] == '"' && CloseTitle(s, k).Some?) {
      assert s[1..k'][k - 1] == s[k];
      NoNewlineExtend(s, 1, k);
      TitleSearchLeast(s, k + 1, k', p, m);
    }
  }

  /** Match `x` comes no later than `y`: lazy title first, then lazy date. */
  predicate Earlier(x: (nat, nat, nat), k: int, p: int, m: int) {
    x.0 < k || (x.0 == k && x.1 == p && x.2 <= m)
  }

  /**
   * On a stripped line, the matcher succeeds exactly when the pattern can match, and then
   * returns the groups of the leftmost split: the shortest title and, for it, the shortest
   * date, with the notes read greedily.
   */
  lemma MatchLineIsLeftmost(s: string)
    requires !EndsInSpace(s)
    ensures MatchLine(s).None? <==> forall k, p, m :: !Split(s, k, p, m)
    ensures MatchLine(s).Some? ==> exists k, p, m :: Split(s, k, p, m) && Chosen(s, MatchLine(s).value, k, p, m)
  {
    if s != [] && s[0] == '"' {
      assert NoNewline(s[1..1]);
      TitleSearchSound(s, 1);
      forall k, p, m | Split(s, k, p, m) ensures TitleSearch(s, 1).Some? && Earlier(TitleSearch(s, 1).value, k, p, m) {
        TitleSearchLeast(s, 1, k, p, m);
      }
      if TitleSearch(s, 1).Some? {
        var (k, p, m) := TitleSearch(s, 1).value;
        MatchLineChosen(s, k, p, m);
      }
    }
  }

  /** The split the title search finds, when it comes first, gives the groups of the match. */
  lemma MatchLineChosen(s: string, k: nat, p: nat, m: nat)
    requires !EndsInSpace(s) && s != [] && s[0] == '"' && TitleSearch(s, 1) == Some((k, p, m))
    requires Split(s, k, p, m) && forall k', p', m' :: Split(s, k', p', m') ==> Earlier((k, p, m), k', p', m')
    ensures MatchLine(s).Some? && Chosen(s, MatchLine(s).value, k, p, m)
  {
    var t := s[m + 1..];
    assert !EndsInSpace(t) by {
      assert t != [] ==> t[|t| - 1] == s[|s| - 1];
    }
    TailNotesMatches(t);
    MatchLineFound(s, k, p, m);
  }

  /** When the title search finds `(k, p, m)` and the tail reads, the groups are read off there. */
  lemma MatchLineFound(s: string, k: nat, p: nat, m: nat)
    requires s != [] && s[0] == '"' && TitleSearch(s, 1) == Some((k, p, m)) && TailNotes(s[m + 1..]).Some?
    ensures MatchLine(s) == Some(LineMatch(s[1..k], s[p + 1..m], TailNotes(s[m + 1..]).value))
  {
  }

  /** `x` holds the groups of split `(k, p, m)`, which is the leftmost one. */
  ghost predicate Chosen(s: string, x: LineMatch, k: int, p: int, m: int)
    requires Split(s, k, p, m)
  {
    && x.title == s[1..k] && x.date == s[p + 1..m]
    && (x.notes.None? <==> m + 1 == |s|)
    && (x.notes.Some? ==> GreedyNotes(s[m + 1..], x.notes.value))
    && forall k', p', m' :: Split(s, k', p', m') ==> k < k' || (k == k' && p == p' && m <= m')
  }

  // Building the records.

  /** `date_str[:-1]` when `date_str` ends with `)`. */
  function DropClosingParen(d: string): (r: string)
    ensures d != [] && d[|d| - 1] == ')' ==> r + [')'] == d
    ensures d == [] || d[|d| - 1] != ')' ==> r == d
  {
    if d != [] && d[|d| - 1] == ')' then d[..|d| - 1] else d
  }

  /** The record a matched line becomes. */
  function EntryOf(x: LineMatch): (e: ListingEntry)
    ensures e.title == x.title && e.airDate == ParseDate(DropClosingParen(x.date)) && e.slot.None?
    ensures e.notes == "" <==> x.notes.None? || x.notes.value == ""
  {
    ListingEntry(x.title, ParseDate(DropClosingParen(x.date)), match x.notes case None => "" case Some(n) => n, None)
  }

  /** The records of the listing's lines, in order: one per line that matches once stripped. */
  function ListingOf(lines: seq<string>): seq<ListingEntry> {
    if lines == [] then []
    else
      var last := lines[|lines| - 1];
      ListingOf(lines[..|lines| - 1]) + match MatchLine(Strip(last)) case None => [] case Some(x) => [EntryOf(x)]
  }

  /** `get_episode_data`, on the lines the file was read into. */
  method ReadListing(lines: seq<string>) returns (episodes: seq<ListingEntry>)
    ensures episodes == ListingOf(lines)
  {
    episodes := [];
    var i := 0;
    while i < |lines|
      invariant 0 <= i <= |lines|
      invariant episodes == ListingOf(lines[..i])
    {
      assert lines[..i + 1][..i] == lines[..i];
      var m := MatchLine(Strip(lines[i]));
      if m.Some? {
        episodes := episodes + [EntryOf(m.value)];
      }
      i := i + 1;
    }
    assert lines[..|lines|] == lines;
  }

  // Properties of the reader.

  /** Reading two runs of lines one after the other gives the records of both, in order. */
  lemma {:induction false} ListingOfAppend(a: seq<string>, b: seq<string>)
    ensures ListingOf(a + b) == ListingOf(a) + ListingOf(b)
    decreases |b|
  {
    if b == [] {
      assert a + b == a;
    } else {
      var b' := b[..|b| - 1];
      assert (a + b)[..|a + b| - 1] == a + b';
      ListingOfAppend(a, b');
    }
  }

  /** One line yields one record when it matches once stripped, and nothing otherwise. */
  lemma ListingOfOneLine(line: string)
    ensures MatchLine(Strip(line)).None? ==> ListingOf([line]) == []
    ensures MatchLine(Strip(line)).Some? ==> ListingOf([line]) == [EntryOf(MatchLine(Strip(line)).value)]
  {
    assert [line][..0] == [];
  }

  /** The stripped line the matcher sees never ends in white space. */
  lemma StrippedLineQualifies(line: string)
    ensures !EndsInSpace(Strip(line))
  {
  }

  /** A record's notes are empty exactly when the line has no notes group. */
  lemma {:induction false} NotesEmptyIffAbsent(line: string)
    requires MatchLine(Strip(line)).Some?
    ensures EntryOf(MatchLine(Strip(line)).value).notes == "" <==> MatchLine(Strip(line)).value.notes.None?
  {
    var s := Strip(line);
    MatchLineIsLeftmost(s);
    var k, p, m :| Split(s, k, p, m) && Chosen(s, MatchLine(s).value, k, p, m);
    var x := MatchLine(s).value;
    if x.notes.Some? {
      var i, j :| InTail(s[m + 1..], i, j) && x.notes.value == s[m + 1..][j..];
    }
  }

  /**
   * Dropping a trailing `)` from the date group never changes the parsed date: `parse_date`
   * already stops at the first `)`.
   */
  lemma {:induction false} DropClosingParenRedundant(d: string)
    ensures ParseDate(DropClosingParen(d)) == ParseDate(d)
  {
    if d != [] && d[|d| - 1] == ')' {
      var r := DropClosingParen(d);
      if ')' in r {
        var c := CutAtParen(r);
        assert r == c + ")" + r[|c| + 1..];
        assert d == c + ")" + (r[|c| + 1..] + ")");
        ParseDateIgnoresAfterParen(c, r[|c| + 1..]);
        ParseDateIgnoresAfterParen(c, r[|c| + 1..] + ")");
      } else {
        assert d == r + ")" + [];
        ParseDateIgnoresAfterParen(r, []);
      }
    }
  }
}
