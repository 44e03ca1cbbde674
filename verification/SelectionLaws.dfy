/** The expansion of a selection agrees with what the page shows as covered, up to ASCII case. */
module SelectionLaws {
  import opened Wrappers
  import opened Like
  import opened Columns
  import opened ColumnLaws
  import opened ColumnTree
  import opened Selection

  /** Stored entries carry a path without outer slashes, as the select route cleans it. */
  predicate Cleaned(entries: seq<Entry>) {
    forall i :: 0 <= i < |entries| ==> Strip(entries[i].1) == entries[i].1
  }

  function Chosen(entries: seq<Entry>): set<Entry> {
    set e | e in entries
  }

  lemma SlashIsPlain()
    ensures Escape("/") == "/"
  {
    EscapeOneChar('/');
  }

  lemma EntryCoversIff(e: Entry, row: Row)
    requires Strip(e.1) == e.1
    ensures EntryCovers(e, row) <==>
      row.domain == e.0 && (e.1 == "" || row.path == e.1 || FoldedPrefix(e.1 + "/", row.path))
  {
    EscapeConcat(e.1, "/");
    SlashIsPlain();
    assert Escape(e.1) + "/%" == Escape(e.1 + "/") + "%";
    EscapedPrefix(e.1 + "/", row.path);
    hide Escape, Matches, FoldedPrefix;
  }

  predicate ChosenAncestor(chosen: set<Entry>, domain: string, path: string, d: int) {
    0 < d < |path| && path[d] == '/' && (domain, path[..d]) in chosen
  }

  lemma {:induction false} NearestChosenSpec(chosen: set<Entry>, domain: string, path: string, depth: nat)
    requires depth <= |path|
    ensures var r := NearestChosen(chosen, domain, path, depth);
      && (r.None? ==> forall d :: 0 < d <= depth ==> !ChosenAncestor(chosen, domain, path, d))
      && (r.Some? ==>
           && |r.value| <= depth && ChosenAncestor(chosen, domain, path, |r.value|) && r.value == path[..|r.value|]
           && forall d :: |r.value| < d <= depth ==> !ChosenAncestor(chosen, domain, path, d))
  {
    if depth > 0 && !ChosenAncestor(chosen, domain, path, depth) {
      NearestChosenSpec(chosen, domain, path, depth - 1);
    }
  }

  /** covered_by names a chosen whole area, or the deepest chosen proper ancestor; None means there is no chosen
      ancestor. */
  lemma CoveredBySpec(chosen: set<Entry>, domain: string, path: string)
    requires Strip(path) == path
    ensures var r := CoveredBy(chosen, domain, path);
      && (r.Some? <==> ((domain, "") in chosen && path != "") || exists d :: ChosenAncestor(chosen, domain, path, d))
      && (r.Some? && !((domain, "") in chosen && path != "") ==>
           && ChosenAncestor(chosen, domain, path, |r.value|) && r.value == path[..|r.value|]
           && forall d :: |r.value| < d ==> !ChosenAncestor(chosen, domain, path, d))
      && ((domain, "") in chosen && path != "" ==> r == Some(domain + " (whole area)"))
  {
    NearestChosenSpec(chosen, domain, path, |path|);
  }

  /** A chosen folder that is an ancestor of the row only when ASCII case is folded. */
  predicate VariantAncestor(e: Entry, row: Row) {
    e.0 == row.domain && e.1 != "" && FoldedPrefix(e.1 + "/", row.path) && !ExactPrefix(e.1 + "/", row.path)
  }

  lemma AncestorIff(chosen: set<Entry>, domain: string, path: string, parent: string)
    requires (domain, parent) in chosen && parent != ""
    ensures ExactPrefix(parent + "/", path) <==>
      ChosenAncestor(chosen, domain, path, |parent|) && path[..|parent|] == parent
  {
    if |parent| < |path| {
      assert path[..|parent| + 1] == path[..|parent|] + [path[|parent|]];
      assert (parent + "/")[..|parent|] == parent && (parent + "/")[|parent|] == '/';
    }
  }

  /** For every row: the archive holds it iff its own pair is chosen, or the page shows it as covered, or a chosen
      folder is its ancestor but for ASCII case. */
  lemma ExpandedIffShown(entries: seq<Entry>, row: Row)
    requires Cleaned(entries) && row.flags == FILE_FLAG && row.path !in META_FILES
    requires row.path != "" && Strip(row.path) == row.path
    ensures Expands(entries, row) <==>
      || (row.domain, row.path) in Chosen(entries)
      || CoveredBy(Chosen(entries), row.domain, row.path).Some?
      || exists e :: e in entries && VariantAncestor(e, row)
  {
    var chosen := Chosen(entries);
    CoveredBySpec(chosen, row.domain, row.path);
    hide EntryCovers, CoveredBy, Strip;
    if AnyCovers(entries, row) {
      var i :| 0 <= i < |entries| && EntryCovers(entries[i], row);
      CoveringEntryShows(entries, row, i);
    }
    if (row.domain, row.path) in chosen {
      ShownEntryCovers(entries, row, (row.domain, row.path));
    }
    if (row.domain, "") in chosen {
      ShownEntryCovers(entries, row, (row.domain, ""));
    }
    if d :| ChosenAncestor(chosen, row.domain, row.path, d) {
      AncestorIff(chosen, row.domain, row.path, row.path[..d]);
      ExactIsFolded(row.path[..d] + "/", row.path);
      ShownEntryCovers(entries, row, (row.domain, row.path[..d]));
    }
    if e :| e in entries && VariantAncestor(e, row) {
      ShownEntryCovers(entries, row, e);
    }
  }

  lemma CoveringEntryShows(entries: seq<Entry>, row: Row, i: nat)
    requires Cleaned(entries) && i < |entries| && EntryCovers(entries[i], row) && row.path != ""
    ensures || (row.domain, row.path) in Chosen(entries) || (row.domain, "") in Chosen(entries)
            || ChosenAncestor(Chosen(entries), row.domain, row.path, |entries[i].1|) || VariantAncestor(entries[i], row)
  {
    EntryCoversIff(entries[i], row);
    assert entries[i] in Chosen(entries);
    assert entries[i] == (entries[i].0, entries[i].1);
    hide EntryCovers, FoldedPrefix;
    if entries[i].1 != "" {
      AncestorIff(Chosen(entries), entries[i].0, row.path, entries[i].1);
    }
  }

  lemma ShownEntryCovers(entries: seq<Entry>, row: Row, e: Entry)
    requires Cleaned(entries) && e in entries && e.0 == row.domain
    requires e.1 == "" || e.1 == row.path || FoldedPrefix(e.1 + "/", row.path)
    ensures AnyCovers(entries, row)
  {
    var i :| 0 <= i < |entries| && entries[i] == e;
    EntryCoversIff(e, row);
    hide EntryCovers, FoldedPrefix;
  }

  // ---- Ticking an entry of a column --------------------------------------------------------------

  /** The row belongs to the entry `name` of the column below literal. */
  predicate InEntry(row: Row, domain: string, literal: string, name: string) {
    IsBelow(row, domain, literal) && HasName(row, literal, name)
  }

  /** A file of that name in a folder that differs from the column's by ASCII case alone. */
  predicate NamesakeElsewhere(row: Row, literal: string, name: string) {
    FoldedPrefix(literal, row.path) && !ExactPrefix(literal, row.path) && row.path[|literal|..] == name
  }

  /** A row below a folder whose last name differs from the entry's by ASCII case alone. */
  predicate BelowOtherSpelling(row: Row, literal: string, name: string) {
    FoldedPrefix(literal + name + "/", row.path) && !ExactPrefix(name + "/", row.path[|literal|..])
  }

  predicate Strays(row: Row, domain: string, literal: string, name: string) {
    row.domain == domain && (NamesakeElsewhere(row, literal, name) || BelowOtherSpelling(row, literal, name))
  }

  predicate IsRegular(row: Row) {
    row.flags == FILE_FLAG && row.path !in META_FILES
  }

  lemma InEntryIff(row: Row, domain: string, literal: string, name: string)
    requires IsPlace(literal, name) && row.flags == FILE_FLAG
    ensures InEntry(row, domain, literal, name) <==>
      && row.domain == domain && FoldedPrefix(literal, row.path)
      && (row.path[|literal|..] == name || ExactPrefix(name + "/", row.path[|literal|..]))
  {
    BelowIff(row, domain, literal);
    hide IsBelow, SameFolded;
    if FoldedPrefix(literal, row.path) {
      NameIff(row.path[|literal|..], name);
    }
  }

  lemma TickIff(row: Row, domain: string, literal: string, name: string)
    requires IsPlace(literal, name) && IsRegular(row)
    ensures Expands([(domain, literal + name)], row) <==>
      row.domain == domain && (row.path == literal + name || FoldedPrefix(literal + name + "/", row.path))
  {
    var e: Entry := (domain, literal + name);
    PlaceIsClean(literal, name);
    EntryCoversIff(e, row);
    hide EntryCovers, Strip, FoldedPrefix, META_FILES;
    assert AnyCovers([e], row) <==> EntryCovers([e][0], row);
  }

  lemma TickAgreesIff(row: Row, domain: string, literal: string, name: string)
    requires IsPlace(literal, name) && IsRegular(row)
    ensures (Expands([(domain, literal + name)], row) <==> InEntry(row, domain, literal, name))
       <==> !Strays(row, domain, literal, name)
  {
    TickIff(row, domain, literal, name);
    InEntryIff(row, domain, literal, name);
    PathIsPlace(row.path, literal, name);
    hide Expands, InEntry, FoldedPrefix, META_FILES;
  }

  lemma PathIsPlace(path: string, literal: string, name: string)
    ensures path == literal + name <==> ExactPrefix(literal, path) && path[|literal|..] == name
    ensures ExactPrefix(literal, path) ==> FoldedPrefix(literal, path)
    ensures FoldedPrefix(literal + name + "/", path)
       <==> FoldedPrefix(literal, path) && FoldedPrefix(name + "/", path[|literal|..])
    ensures FoldedPrefix(literal, path) && path[|literal|..] == name ==> !FoldedPrefix(name + "/", path[|literal|..])
    ensures FoldedPrefix(literal, path) && ExactPrefix(name + "/", path[|literal|..]) ==>
      FoldedPrefix(name + "/", path[|literal|..])
  {
    assert literal + name + "/" == literal + (name + "/");
    FoldedSplit(literal, name + "/", path);
    ExactIsFolded(literal, path);
    if ExactPrefix(literal, path) {
      assert path == literal + path[|literal|..];
    }
    if FoldedPrefix(literal, path) {
      ExactIsFolded(name + "/", path[|literal|..]);
    }
  }

  /** The ids of the regular files an entry stands for, in table order. */
  function EntryIds(rows: seq<Row>, domain: string, literal: string, name: string): seq<string> {
    if rows == [] then []
    else
      var n := |rows| - 1;
      EntryIds(rows[..n], domain, literal, name)
      + if IsRegular(rows[n]) && InEntry(rows[n], domain, literal, name) then [rows[n].fileId] else []
  }

  /** Ticking an entry of a column puts exactly the regular files it stands for into the archive, exactly when no
      regular file strays: as a namesake in a case variant of the column's folder, or below another spelling of the
      entry. */
  lemma TickedEntryIsItsFilesIff(rows: seq<Row>, domain: string, literal: string, name: string)
    requires IsPlace(literal, name)
    ensures var chosen: seq<Entry> := [(domain, literal + name)];
      && ((forall i :: 0 <= i < |rows| && IsRegular(rows[i]) ==>
             (Expands(chosen, rows[i]) <==> InEntry(rows[i], domain, literal, name)))
          <==> forall i :: 0 <= i < |rows| && IsRegular(rows[i]) ==> !Strays(rows[i], domain, literal, name))
      && ((forall i :: 0 <= i < |rows| && IsRegular(rows[i]) ==> !Strays(rows[i], domain, literal, name)) ==>
            ExpandedIds(rows, chosen) == EntryIds(rows, domain, literal, name))
  {
    forall i | 0 <= i < |rows| && IsRegular(rows[i])
      ensures (Expands([(domain, literal + name)], rows[i]) <==> InEntry(rows[i], domain, literal, name))
         <==> !Strays(rows[i], domain, literal, name)
    {
      TickAgreesIff(rows[i], domain, literal, name);
    }
    hide Expands, InEntry, Strays, IsRegular;
    if forall i :: 0 <= i < |rows| && IsRegular(rows[i]) ==> !Strays(rows[i], domain, literal, name) {
      TickedIds(rows, domain, literal, name);
    }
  }

  lemma {:induction false} TickedIds(rows: seq<Row>, domain: string, literal: string, name: string)
    requires forall i :: 0 <= i < |rows| && IsRegular(rows[i]) ==>
      (Expands([(domain, literal + name)], rows[i]) <==> InEntry(rows[i], domain, literal, name))
    ensures ExpandedIds(rows, [(domain, literal + name)]) == EntryIds(rows, domain, literal, name)
  {
    hide Expands, InEntry, IsRegular;
    if rows == [] {
    } else {
      var n := |rows| - 1;
      assert forall i :: 0 <= i < n ==> rows[..n][i] == rows[i];
      TickedIds(rows[..n], domain, literal, name);
      OnlyRegularExpands([(domain, literal + name)], rows[n]);
    }
  }

  lemma OnlyRegularExpands(entries: seq<Entry>, row: Row)
    ensures Expands(entries, row) ==> IsRegular(row)
  {
    hide AnyCovers, META_FILES;
  }

  /** The column of Foo lists foo/b as its entry b; ticking that entry puts nothing into the archive. */
  lemma TickedEntryIsLost()
    ensures InEntry(LEAK[1], "d", "Foo/", "b") && ExpandedIds(LEAK, [("d", "Foo/" + "b")]) == []
  {
    assert LEAK[1].path[4..] == "b" && "foo/b"[..4] == "foo/" && "Foo/a"[4..] == "a";
    assert LEAK[0].path == "Foo/a" && "Foo/" + "b" == "Foo/b";
    LeakTicks(LEAK[0]);
    LeakTicks(LEAK[1]);
    InEntryIff(LEAK[1], "d", "Foo/", "b");
    hide Expands, InEntry;
    assert LEAK[..1] == [LEAK[0]] && [LEAK[0]][..0] == [];
    assert ExpandedIds([], [("d", "Foo/" + "b")]) == [];
    assert ExpandedIds([LEAK[0]], [("d", "Foo/" + "b")]) == [];
  }

  lemma LeakTicks(row: Row)
    requires row in LEAK
    ensures !Expands([("d", "Foo/" + "b")], row)
  {
    assert row.path == "Foo/a" || row.path == "foo/b";
    assert "Foo/" + "b" == "Foo/b" && "Foo/b"[0] == 'F' && "Foo/a"[4] == 'a';
    TickIff(row, "d", "Foo/", "b");
    assert |"Foo/" + "b" + "/"| == 6;
    hide Expands, SameFolded;
  }

  // ---- The expansion depends only on what is covered -------------------------------------------

  lemma {:induction false} SameCoverSameIds(rows: seq<Row>, a: seq<Entry>, b: seq<Entry>)
    requires forall i :: 0 <= i < |rows| ==> (AnyCovers(a, rows[i]) <==> AnyCovers(b, rows[i]))
    ensures ExpandedIds(rows, a) == ExpandedIds(rows, b)
  {
    hide AnyCovers;
    if rows == [] {
    } else {
      var n := |rows| - 1;
      assert forall i :: 0 <= i < n ==> rows[..n][i] == rows[i];
      SameCoverSameIds(rows[..n], a, b);
    }
  }

  /** Choosing the same entries in another order, or twice, gives the same archive. */
  lemma OrderDoesNotMatter(rows: seq<Row>, a: seq<Entry>, b: seq<Entry>)
    requires Chosen(a) == Chosen(b)
    ensures ExpandedIds(rows, a) == ExpandedIds(rows, b)
  {
    forall i | 0 <= i < |rows| ensures AnyCovers(a, rows[i]) <==> AnyCovers(b, rows[i]) {
      CoverBySet(a, b, rows[i]);
      CoverBySet(b, a, rows[i]);
    }
    SameCoverSameIds(rows, a, b);
  }

  lemma CoverBySet(a: seq<Entry>, b: seq<Entry>, row: Row)
    requires Chosen(a) <= Chosen(b)
    ensures AnyCovers(a, row) ==> AnyCovers(b, row)
  {
    hide EntryCovers;
    if AnyCovers(a, row) {
      var i :| 0 <= i < |a| && EntryCovers(a[i], row);
      assert a[i] in Chosen(a);
      var j :| 0 <= j < |b| && b[j] == a[i];
    }
  }

  lemma FoldedPrefixTransitive(p: string, q: string, s: string)
    requires ExactPrefix(p, q) && FoldedPrefix(q, s)
    ensures FoldedPrefix(p, s)
  {
    assert forall i :: 0 <= i < |p| ==> p[i] == q[..|p|][i] == q[i] && s[..|p|][i] == s[..|q|][i];
  }

  lemma CoveredEntryAddsNothing(entries: seq<Entry>, e: Entry, row: Row)
    requires Cleaned(entries) && Strip(e.1) == e.1 && CoveredBy(Chosen(entries), e.0, e.1).Some?
    ensures EntryCovers(e, row) ==> AnyCovers(entries, row)
  {
    CoveredBySpec(Chosen(entries), e.0, e.1);
    EntryCoversIff(e, row);
    hide EntryCovers, AnyCovers, CoveredBy, Strip, FoldedPrefix, ExactPrefix;
    if EntryCovers(e, row) {
      if (e.0, "") in Chosen(entries) {
        ShownEntryCovers(entries, row, (e.0, ""));
      } else {
        var d :| ChosenAncestor(Chosen(entries), e.0, e.1, d);
        var parent := e.1[..d];
        AncestorIff(Chosen(entries), e.0, e.1, parent);
        assert e.1 != "";
        AncestorFolds(parent, e.1, row.path);
        ShownEntryCovers(entries, row, (e.0, parent));
      }
    }
  }

  lemma AncestorFolds(parent: string, path: string, s: string)
    requires ExactPrefix(parent + "/", path) && (s == path || FoldedPrefix(path + "/", s))
    ensures FoldedPrefix(parent + "/", s)
  {
    if s == path {
      ExactIsFolded(parent + "/", s);
    } else {
      assert (path + "/")[..|parent + "/"|] == path[..|parent + "/"|];
      FoldedPrefixTransitive(parent + "/", path + "/", s);
    }
  }

  /** Ticking a row the page already shows as covered leaves the archive unchanged. */
  lemma CoveredEntryIsRedundant(rows: seq<Row>, entries: seq<Entry>, e: Entry)
    requires Cleaned(entries) && Strip(e.1) == e.1 && CoveredBy(Chosen(entries), e.0, e.1).Some?
    ensures ExpandedIds(rows, entries + [e]) == ExpandedIds(rows, entries)
  {
    forall i | 0 <= i < |rows| ensures AnyCovers(entries + [e], rows[i]) <==> AnyCovers(entries, rows[i]) {
      CoverAppend(entries, e, rows[i]);
      CoveredEntryAddsNothing(entries, e, rows[i]);
      hide AnyCovers, EntryCovers;
    }
    SameCoverSameIds(rows, entries + [e], entries);
  }

  lemma CoverAppend(entries: seq<Entry>, e: Entry, row: Row)
    ensures AnyCovers(entries + [e], row) <==> AnyCovers(entries, row) || EntryCovers(e, row)
  {
    hide EntryCovers;
    var all := entries + [e];
    if EntryCovers(e, row) {
      assert all[|entries|] == e;
    }
    if AnyCovers(entries, row) {
      var i :| 0 <= i < |entries| && EntryCovers(entries[i], row);
      assert all[i] == entries[i];
    }
  }

  /** The archive holds exactly the regular files, save the backup's own, that lie in a chosen area, are chosen
      themselves or lie below a chosen path up to ASCII case. */
  lemma ArchiveHolds(rows: seq<Row>, entries: seq<Entry>, id: string)
    requires Cleaned(entries)
    ensures id in ExpandedIds(rows, entries) <==>
      exists i, j ::
        && 0 <= i < |rows| && 0 <= j < |entries| && rows[i].fileId == id
        && rows[i].flags == 1 && rows[i].path !in META_FILES && rows[i].domain == entries[j].0
        && (entries[j].1 == "" || rows[i].path == entries[j].1 || FoldedPrefix(entries[j].1 + "/", rows[i].path))
  {
    ExpandedOnly(rows, entries, id);
    forall i, j | 0 <= i < |rows| && 0 <= j < |entries|
      ensures EntryCovers(entries[j], rows[i]) <==>
        && rows[i].domain == entries[j].0
        && (entries[j].1 == "" || rows[i].path == entries[j].1 || FoldedPrefix(entries[j].1 + "/", rows[i].path))
    {
      EntryCoversIff(entries[j], rows[i]);
    }
    hide EntryCovers, FoldedPrefix, META_FILES, ExpandedIds;
    if i :| 0 <= i < |rows| && Expands(entries, rows[i]) && rows[i].fileId == id {
      var j :| 0 <= j < |entries| && EntryCovers(entries[j], rows[i]);
    }
    if i, j :| 0 <= i < |rows| && 0 <= j < |entries| && rows[i].fileId == id && rows[i].flags == 1
               && rows[i].path !in META_FILES && EntryCovers(entries[j], rows[i]) {
      assert AnyCovers(entries, rows[i]) && Expands(entries, rows[i]);
    }
  }

  lemma {:induction false} ExpandedOnly(rows: seq<Row>, entries: seq<Entry>, id: string)
    ensures id in ExpandedIds(rows, entries) <==>
      exists i :: 0 <= i < |rows| && Expands(entries, rows[i]) && rows[i].fileId == id
  {
    hide Expands;
    if rows == [] {
    } else {
      var n := |rows| - 1;
      ExpandedOnly(rows[..n], entries, id);
      assert forall i :: 0 <= i < n ==> rows[..n][i] == rows[i];
    }
  }
}
