/** The compact selection of a browsing session: what the page shows as covered, and what the archive expands it to. */
module Selection {
  import opened Wrappers
  import opened Like
  import opened Columns

  /** A chosen row: a domain and a path; the empty path is the whole domain. */
  type Entry = (string, string)

  const MAX_SELECTION_ENTRIES: nat := 1000

  // ---- The expansion -----------------------------------------------------------------------

  /** One OR branch of the query. */
  predicate EntryCovers(e: Entry, row: Row) {
    var cleaned := Strip(e.1);
    row.domain == e.0
    && (cleaned == "" || row.path == cleaned || Matches(Escape(cleaned) + "/%", row.path))
  }

  predicate AnyCovers(entries: seq<Entry>, row: Row) {
    exists i :: 0 <= i < |entries| && EntryCovers(entries[i], row)
  }

  predicate Expands(entries: seq<Entry>, row: Row) {
    row.flags == FILE_FLAG && AnyCovers(entries, row) && row.path !in META_FILES
  }

  /** The ids of the rows the entries expand to, in the table's (domain, path) order. */
  function ExpandedIds(rows: seq<Row>, entries: seq<Entry>): seq<string> {
    if rows == [] then []
    else
      var n := |rows| - 1;
      ExpandedIds(rows[..n], entries) + if Expands(entries, rows[n]) then [rows[n].fileId] else []
  }

  /** `rows` is the table in ORDER BY domain, relativePath. */
  method SelectionFileIds(rows: seq<Row>, entries: seq<Entry>) returns (ids: seq<string>)
    ensures ids == ExpandedIds(rows, entries)
  {
    hide EntryCovers;
    ids := [];
    if entries == [] {
      NothingChosen(rows);
      return;
    }
    var i := 0;
    while i < |rows|
      invariant 0 <= i <= |rows| && ids == ExpandedIds(rows[..i], entries)
    {
      assert rows[..i + 1][..i] == rows[..i];
      if rows[i].flags == FILE_FLAG && AnyCovers(entries, rows[i]) && rows[i].path !in META_FILES {
        ids := ids + [rows[i].fileId];
      }
      i := i + 1;
    }
    assert rows[..i] == rows;
  }

  lemma {:induction false} NothingChosen(rows: seq<Row>)
    ensures ExpandedIds(rows, []) == []
  {
    if rows == [] {
    } else {
      NothingChosen(rows[..|rows| - 1]);
    }
  }

  // ---- What the page shows -----------------------------------------------------------------

  /** The nearest chosen ancestor of a cleaned path, looking from `depth` characters backwards. */
  function NearestChosen(chosen: set<Entry>, domain: string, path: string, depth: nat): Option<string>
    requires depth <= |path|
  {
    if depth == 0 then None
    else if depth < |path| && path[depth] == '/' && (domain, path[..depth]) in chosen then Some(path[..depth])
    else NearestChosen(chosen, domain, path, depth - 1)
  }

  /** The ancestor the page names as already covering a row, if there is one. */
  function CoveredBy(chosen: set<Entry>, domain: string, path: string): Option<string> {
    if (domain, "") in chosen && path != "" then Some(domain + " (whole area)")
    else NearestChosen(chosen, domain, Strip(path), |Strip(path)|)
  }

  // ---- The session's selections ------------------------------------------------------------

  datatype Change = Add(e: Entry) | Discard(e: Entry)

  function Changed(chosen: set<Entry>, c: Change): set<Entry> {
    match c
    case Add(e) => chosen + {e}
    case Discard(e) => chosen - {e}
  }

  lemma ChangedSize(chosen: set<Entry>, c: Change)
    ensures c.Add? ==> |chosen + {c.e}| == |chosen| + if c.e in chosen then 0 else 1
    ensures c.Discard? ==> |chosen - {c.e}| <= |chosen|
  {
    if c.e in chosen {
      assert chosen + {c.e} == chosen;
      assert chosen == (chosen - {c.e}) + {c.e};
    } else {
      assert chosen - {c.e} == chosen;
    }
  }

  /** file_selections: one set of entries and its expiry per session, device and generation. */
  class SelectionStore {
    var selections: map<string, (set<Entry>, real)>

    constructor ()
      ensures selections == map[]
    {
      selections := map[];
    }

    function ChosenFor(key: string): set<Entry>
      reads this
    {
      if key in selections then selections[key].0 else {}
    }

    /** A stored selection is never empty and never over the ceiling. */
    predicate Valid()
      reads this
    {
      forall key :: key in selections ==> selections[key].0 != {} && |selections[key].0| <= MAX_SELECTION_ENTRIES
    }

    /** The change applies unless it would pass the ceiling, and then nothing changes; no other key is touched. */
    method ChangeSelection(key: string, c: Change, expires: real)
      requires Valid()
      modifies this
      ensures Valid()
      ensures var chosen := Changed(old(ChosenFor(key)), c);
        selections == if |chosen| > MAX_SELECTION_ENTRIES then old(selections)
                      else if chosen == {} then old(selections) - {key}
                      else old(selections)[key := (chosen, expires)]
      ensures c.Add? && (c.e in old(ChosenFor(key)) || |old(ChosenFor(key))| < MAX_SELECTION_ENTRIES) ==>
        c.e in ChosenFor(key) && forall x :: x != c.e ==> (x in ChosenFor(key) <==> x in old(ChosenFor(key)))
      ensures c.Add? && c.e !in old(ChosenFor(key)) && |old(ChosenFor(key))| == MAX_SELECTION_ENTRIES ==>
        selections == old(selections)
      ensures c.Discard? ==> forall x :: x in ChosenFor(key) <==> x in old(ChosenFor(key)) && x != c.e
    {
      var chosen := Changed(ChosenFor(key), c);
      ChangedSize(ChosenFor(key), c);
      if |chosen| > MAX_SELECTION_ENTRIES {
        return;
      }
      if chosen != {} {
        selections := selections[key := (chosen, expires)];
      } else {
        selections := selections - {key};
      }
    }

    method SweepFileSelections(now: real)
      requires Valid()
      modifies this
      ensures Valid()
      ensures forall key :: key in selections <==> key in old(selections) && now < old(selections)[key].1
      ensures forall key :: key in selections ==> selections[key] == old(selections)[key]
    {
      selections := map key | key in selections && now < selections[key].1 :: selections[key];
    }
  }
}
