/** What the rows of a page say about the manifest. */
module PageLaws {
  import opened Wrappers
  import opened Timestamps
  import opened Like
  import opened Columns
  import opened ColumnLaws
  import opened ColumnTree

  /** A listed row that continues below the name. */
  predicate LiesDeeper(row: Row, domain: string, literal: string, name: string) {
    Listed(row, domain) && FoldedPrefix(literal, row.path) && ExactPrefix(name + "/", row.path[|literal|..])
  }

  /** A listed row of the entry: the name itself, or something below it. */
  predicate BelongsTo(row: Row, domain: string, literal: string, name: string) {
    && Listed(row, domain) && FoldedPrefix(literal, row.path) && row.path[|literal|..] != ""
    && (row.path[|literal|..] == name || ExactPrefix(name + "/", row.path[|literal|..]))
  }

  function Members(rows: seq<Row>, domain: string, literal: string, name: string): set<nat> {
    set i: nat | i < |rows| && BelongsTo(rows[i], domain, literal, name)
  }

  lemma BelongsIff(row: Row, domain: string, literal: string, name: string)
    requires '/' !in name
    ensures BelongsTo(row, domain, literal, name) <==> IsBelow(row, domain, literal) && HasName(row, literal, name)
    ensures LiesDeeper(row, domain, literal, name) <==>
      IsBelow(row, domain, literal) && HasName(row, literal, name) && HasSlash(Rest(row, literal))
  {
    BelowIff(row, domain, literal);
    hide IsBelow, SameFolded, Listed;
    if FoldedPrefix(literal, row.path) {
      NameIff(row.path[|literal|..], name);
    }
  }

  lemma MembersOfMore(rows: seq<Row>, domain: string, literal: string, name: string)
    requires rows != []
    ensures var n := |rows| - 1;
      && Members(rows, domain, literal, name)
         == Members(rows[..n], domain, literal, name) + (if BelongsTo(rows[n], domain, literal, name) then {n} else {})
      && n !in Members(rows[..n], domain, literal, name)
  {
    hide BelongsTo;
    assert forall i :: 0 <= i < |rows| - 1 ==> rows[..|rows| - 1][i] == rows[i];
  }

  /** The least file id of the members: one of them has it, and none has a smaller one. */
  predicate IsLeastId(rows: seq<Row>, members: set<nat>, id: string) {
    && (exists i :: i in members && i < |rows| && rows[i].fileId == id)
    && forall i :: i in members && i < |rows| ==> !TextLess(rows[i].fileId, id)
  }

  lemma LeastGrows(rows: seq<Row>, members: set<nat>, id: string, more: string)
    requires rows != [] && IsLeastId(rows[..|rows| - 1], members, id) && rows[|rows| - 1].fileId == more
    requires forall i :: i in members ==> i < |rows| - 1
    ensures IsLeastId(rows, members + {|rows| - 1}, MinText(id, more))
  {
    var n := |rows| - 1;
    assert forall i :: 0 <= i < n ==> rows[..n][i] == rows[i];
    var all, least := members + {n}, MinText(id, more);
    var w :| w in members && w < n && rows[..n][w].fileId == id;
    assert rows[w].fileId == id && w in all && n in all;
    forall i | i in all && i < |rows| ensures !TextLess(rows[i].fileId, least) {
      if TextLess(rows[i].fileId, least) {
        if i < n {
          assert !TextLess(rows[..n][i].fileId, id);
          if TextLess(more, id) {
            TextTransitive(rows[i].fileId, more, id);
          }
        } else {
          TextLessIrreflexive(more);
        }
      }
    }
    hide TextLess;
  }

  lemma FirstIsLeast(rows: seq<Row>)
    requires rows != []
    ensures IsLeastId(rows, {|rows| - 1}, rows[|rows| - 1].fileId)
  {
    TextLessIrreflexive(rows[|rows| - 1].fileId);
    hide TextLess;
  }

  lemma LeastStays(rows: seq<Row>, members: set<nat>, id: string)
    requires rows != [] && IsLeastId(rows[..|rows| - 1], members, id)
    requires forall i :: i in members ==> i < |rows| - 1
    ensures IsLeastId(rows, members, id)
  {
    assert forall i :: 0 <= i < |rows| - 1 ==> rows[..|rows| - 1][i] == rows[i];
    hide TextLess;
  }

  /** Count, kind and id of a group, read off the manifest. */
  lemma {:induction false} GroupIs(rows: seq<Row>, domain: string, literal: string, name: string)
    requires '/' !in name
    ensures var below, members := Below(rows, domain, literal), Members(rows, domain, literal, name);
      && Named(below, literal, name) == |members|
      && (AnyDeeper(below, literal, name) <==>
            exists i :: 0 <= i < |rows| && LiesDeeper(rows[i], domain, literal, name))
      && (LeastId(below, literal, name).None? <==> members == {})
      && (LeastId(below, literal, name).Some? ==> IsLeastId(rows, members, LeastId(below, literal, name).value))
  {
    hide IsBelow, HasName, HasSlash, Rest, BelongsTo, LiesDeeper, IsLeastId, Members, Named, AnyDeeper, LeastId, Below,
      MinText;
    if rows == [] {
      EmptyGroup(domain, literal, name);
    } else {
      var n := |rows| - 1;
      var before := Below(rows[..n], domain, literal);
      GroupIs(rows[..n], domain, literal, name);
      BelowOfMore(rows, domain, literal);
      MembersOfMore(rows, domain, literal, name);
      MembersInRange(rows[..n], domain, literal, name);
      BelongsIff(rows[n], domain, literal, name);
      NamedAppend(before, rows[n], literal, name);
      DeeperAppend(before, rows[n], literal, name);
      LeastAppend(before, rows[n], literal, name);
      DeeperOfMore(rows, domain, literal, name);
      LeastOfMore(rows, domain, literal, name, LeastId(before, literal, name));
    }
  }

  lemma BelowOfMore(rows: seq<Row>, domain: string, literal: string)
    requires rows != []
    ensures var n := |rows| - 1;
      && (IsBelow(rows[n], domain, literal) ==>
            Below(rows, domain, literal) == Below(rows[..n], domain, literal) + [rows[n]])
      && (!IsBelow(rows[n], domain, literal) ==> Below(rows, domain, literal) == Below(rows[..n], domain, literal))
  {
    hide IsBelow;
  }

  lemma EmptyGroup(domain: string, literal: string, name: string)
    ensures Below([], domain, literal) == [] && Members([], domain, literal, name) == {}
    ensures Named([], literal, name) == 0 && !AnyDeeper([], literal, name) && LeastId([], literal, name) == None
  {
  }

  lemma LeastAppend(below: seq<Row>, row: Row, literal: string, name: string)
    ensures LeastId(below + [row], literal, name) ==
      if !HasName(row, literal, name) then LeastId(below, literal, name)
      else if LeastId(below, literal, name).None? then Some(row.fileId)
      else Some(MinText(LeastId(below, literal, name).value, row.fileId))
  {
    assert (below + [row])[..|below|] == below;
    hide HasName, MinText;
  }

  lemma DeeperOfMore(rows: seq<Row>, domain: string, literal: string, name: string)
    requires rows != []
    ensures var n := |rows| - 1;
      (exists i :: 0 <= i < |rows| && LiesDeeper(rows[i], domain, literal, name)) <==>
      (exists i :: 0 <= i < n && LiesDeeper(rows[..n][i], domain, literal, name))
      || LiesDeeper(rows[n], domain, literal, name)
  {
    hide LiesDeeper;
    var n := |rows| - 1;
    assert forall i :: 0 <= i < n ==> rows[..n][i] == rows[i];
  }

  lemma MembersInRange(rows: seq<Row>, domain: string, literal: string, name: string)
    ensures forall i :: i in Members(rows, domain, literal, name) ==> i < |rows|
  {
  }

  lemma LeastOfMore(rows: seq<Row>, domain: string, literal: string, name: string, before: Option<string>)
    requires rows != []
    requires var m := Members(rows[..|rows| - 1], domain, literal, name);
      (before.None? <==> m == {}) && (before.Some? ==> IsLeastId(rows[..|rows| - 1], m, before.value))
    ensures var n := |rows| - 1;
      var m := Members(rows[..n], domain, literal, name);
      && (before.Some? ==>
            && IsLeastId(rows, m + {n}, MinText(before.value, rows[n].fileId))
            && IsLeastId(rows, m, before.value))
      && (before.None? ==> IsLeastId(rows, m + {n}, rows[n].fileId))
  {
    var n := |rows| - 1;
    var m := Members(rows[..n], domain, literal, name);
    MembersInRange(rows[..n], domain, literal, name);
    hide Members, IsLeastId, MinText;
    if before.Some? {
      LeastGrows(rows, m, before.value, rows[n].fileId);
      LeastStays(rows, m, before.value);
    } else {
      FirstIsLeast(rows);
      assert m + {n} == {n};
    }
  }

  // ---- One row of a page -------------------------------------------------------------------

  /** The row says what the manifest says: how many rows belong to its name, whether some row lies deeper, and for a
      file the least id of its rows. */
  predicate SaysTrue(r: PageRow, rows: seq<Row>, domain: string, literal: string) {
    var members := Members(rows, domain, literal, r.name);
    && '/' !in r.name && r.count == |members| > 0
    && (r.isFolder <==> exists i :: 0 <= i < |rows| && LiesDeeper(rows[i], domain, literal, r.name))
    && (r.fileId.Some? <==> !r.isFolder)
    && (r.fileId.Some? ==> IsLeastId(rows, members, r.fileId.value))
    && (r.isFolder || literal + r.name !in META_FILES)
  }

  /** Folders first, then by name. */
  predicate InOrder(ps: seq<PageRow>) {
    forall i, j :: 0 <= i < j < |ps| ==>
      || (ps[i].isFolder && !ps[j].isFolder)
      || (ps[i].isFolder == ps[j].isFolder && TextLess(ps[i].name, ps[j].name))
  }

  lemma {:induction false} ShownKeepsOrder(cs: seq<Child>, literal: string)
    requires Sorted(cs)
    ensures Sorted(WithoutMeta(cs, literal))
    ensures forall c :: c in WithoutMeta(cs, literal) ==> c in cs && (c.isFolder || literal + c.name !in META_FILES)
  {
    hide META_FILES, Before;
    if cs == [] {
    } else {
      var n := |cs| - 1;
      assert Sorted(cs[..n]) by {
        assert forall i :: 0 <= i < n ==> cs[..n][i] == cs[i];
      }
      ShownKeepsOrder(cs[..n], literal);
      var before := WithoutMeta(cs[..n], literal);
      forall i | 0 <= i < |before| ensures Before(before[i], cs[n]) {
        assert before[i] in cs[..n];
        var k :| 0 <= k < n && cs[..n][k] == before[i];
        assert cs[k] == before[i];
      }
    }
  }

  lemma RowsInOrder(cs: seq<Child>)
    requires Sorted(cs)
    ensures InOrder(RowsOf(cs))
  {
    hide TextLess;
  }

  lemma ChildSaysTrue(rows: seq<Row>, domain: string, literal: string, c: Child)
    requires c in Column(rows, domain, literal) && (c.isFolder || literal + c.name !in META_FILES)
    ensures var r := PageRow(c.name, c.isFolder, c.count, if c.isFolder then None else Some(c.fileId));
      SaysTrue(r, rows, domain, literal)
  {
    ColumnCountsEveryRowOnce(rows, domain, literal);
    ColumnNames(rows, domain, literal, c.name);
    assert c.name in NamesOf(Column(rows, domain, literal));
    GroupIs(rows, domain, literal, c.name);
    hide Column, Below, Named, AnyDeeper, LeastId, NamesOf, META_FILES, Members, IsLeastId, LiesDeeper, Sorted,
      DistinctNames;
  }

  /** Every row of every page of a column says what the manifest says, and the rows stand in order. */
  lemma PageSaysTrue(rows: seq<Row>, domain: string, literal: string, page: int, pageSize: nat)
    requires 1 <= page
    ensures var ps := PageRows(Column(rows, domain, literal), literal, page, pageSize);
      InOrder(ps) && forall k :: 0 <= k < |ps| ==> SaysTrue(ps[k], rows, domain, literal)
  {
    var col := Column(rows, domain, literal);
    var cut := Slice(col, page, pageSize);
    ColumnCountsEveryRowOnce(rows, domain, literal);
    SliceKeepsOrder(col, page, pageSize);
    ShownKeepsOrder(cut, literal);
    RowsInOrder(WithoutMeta(cut, literal));
    hide Column, Slice, WithoutMeta, SaysTrue, Sorted, InOrder, META_FILES, DistinctNames, Below, Named, AnyDeeper,
      LeastId;
    var shown := WithoutMeta(cut, literal);
    forall k | 0 <= k < |shown| ensures SaysTrue(RowsOf(shown)[k], rows, domain, literal) {
      assert shown[k] in shown;
      ChildSaysTrue(rows, domain, literal, shown[k]);
    }
  }

  lemma SliceKeepsOrder(col: seq<Child>, page: int, pageSize: nat)
    requires Sorted(col) && 1 <= page
    ensures Sorted(Slice(col, page, pageSize)) && forall c :: c in Slice(col, page, pageSize) ==> c in col
  {
    hide Before;
  }

  predicate ListsEntry(ps: seq<PageRow>, name: string) {
    exists k :: 0 <= k < |ps| && ps[k].name == name
  }

  predicate ListsFolder(ps: seq<PageRow>, name: string) {
    exists k :: 0 <= k < |ps| && ps[k].name == name && ps[k].isFolder
  }

  /** The whole column shows a name exactly when some listed row belongs to it, save the backup's own bookkeeping
      files. */
  lemma ShownIff(rows: seq<Row>, domain: string, literal: string, name: string)
    requires '/' !in name
    ensures ListsEntry(RowsOf(Shown(rows, domain, literal)), name)
       <==> && Members(rows, domain, literal, name) != {}
            && (literal + name !in META_FILES
                || exists i :: 0 <= i < |rows| && LiesDeeper(rows[i], domain, literal, name))
  {
    ShownColumn(rows, domain, literal, name);
    ColumnNames(rows, domain, literal, name);
    FolderIsNamed(Column(rows, domain, literal), name);
    GroupIs(rows, domain, literal, name);
    NamesAre(Shown(rows, domain, literal), name);
    hide Shown, Column, Below, Named, AnyDeeper, LeastId, META_FILES, Members, LiesDeeper, NamesOf, FolderIn,
      ListsEntry, ListsFolder, RowsOf;
  }

  lemma {:induction false} NamesAre(cs: seq<Child>, name: string)
    ensures ListsEntry(RowsOf(cs), name) <==> name in NamesOf(cs)
    ensures ListsFolder(RowsOf(cs), name) <==> FolderIn(cs, name)
  {
    if cs == [] {
    } else {
      NamesAre(cs[1..], name);
      ListsHead(RowsOf(cs), name);
      assert RowsOf(cs)[1..] == RowsOf(cs[1..]);
      assert RowsOf(cs)[0].name == cs[0].name && RowsOf(cs)[0].isFolder == cs[0].isFolder;
      hide RowsOf, ListsEntry, ListsFolder;
    }
  }

  lemma ListsHead(ps: seq<PageRow>, name: string)
    requires ps != []
    ensures ListsEntry(ps, name) <==> ps[0].name == name || ListsEntry(ps[1..], name)
    ensures ListsFolder(ps, name) <==> (ps[0].name == name && ps[0].isFolder) || ListsFolder(ps[1..], name)
  {
    assert forall k :: 0 < k < |ps| ==> ps[k] == ps[1..][k - 1];
    if k :| 0 <= k < |ps[1..]| && ps[1..][k].name == name && ps[1..][k].isFolder {
      assert ps[k + 1].name == name;
    }
    if k :| 0 <= k < |ps[1..]| && ps[1..][k].name == name {
      assert ps[k + 1].name == name;
    }
  }
}
