/** Columns of columns: folder counts add up, every file has exactly one path through the columns, and pages join
    up. */
module ColumnTree {
  import opened Wrappers
  import opened Like
  import opened Columns
  import opened ColumnLaws

  predicate ExactPrefix(p: string, s: string) {
    |p| <= |s| && s[..|p|] == p
  }

  predicate Listed(row: Row, domain: string) {
    row.domain == domain && (row.flags == FILE_FLAG || row.flags == DIRECTORY_FLAG)
  }

  lemma SelectedIff(row: Row, domain: string, literal: string)
    ensures Selected(row, domain, literal) <==> Listed(row, domain) && FoldedPrefix(literal, row.path)
  {
    EscapedPrefix(literal, row.path);
    hide Escape, Matches;
  }

  lemma ExactIsFolded(p: string, s: string)
    ensures ExactPrefix(p, s) ==> FoldedPrefix(p, s)
  {
  }

  /** No listed path of the domain begins with the prefix in other letters than the prefix's own. */
  predicate CaseExact(rows: seq<Row>, domain: string, literal: string) {
    forall i :: 0 <= i < |rows| && Listed(rows[i], domain) && FoldedPrefix(literal, rows[i].path) ==>
      ExactPrefix(literal, rows[i].path)
  }

  // ---- Exactly when case leaks into a column ---------------------------------------------------

  predicate IsBelowExactly(row: Row, domain: string, literal: string) {
    Listed(row, domain) && ExactPrefix(literal, row.path) && |literal| < |row.path|
  }

  function CountBelowExactly(rows: seq<Row>, domain: string, literal: string): nat {
    if rows == [] then 0
    else
      var n := |rows| - 1;
      CountBelowExactly(rows[..n], domain, literal) + if IsBelowExactly(rows[n], domain, literal) then 1 else 0
  }

  /** A row below a folder that differs from the prefix by ASCII case alone. */
  predicate IsVariant(row: Row, domain: string, literal: string) {
    Listed(row, domain) && FoldedPrefix(literal, row.path) && !ExactPrefix(literal, row.path) && |literal| < |row.path|
  }

  function CountVariants(rows: seq<Row>, domain: string, literal: string): nat {
    if rows == [] then 0
    else
      var n := |rows| - 1;
      CountVariants(rows[..n], domain, literal) + if IsVariant(rows[n], domain, literal) then 1 else 0
  }

  lemma BelowIff(row: Row, domain: string, literal: string)
    ensures IsBelow(row, domain, literal) <==>
      Listed(row, domain) && FoldedPrefix(literal, row.path) && |literal| < |row.path|
  {
    SelectedIff(row, domain, literal);
    hide Selected;
  }

  /** A column counts the rows of its own folder and, besides, every row of each case-variant folder. */
  lemma {:induction false} ColumnCountsVariants(rows: seq<Row>, domain: string, literal: string)
    ensures |Below(rows, domain, literal)|
      == CountBelowExactly(rows, domain, literal) + CountVariants(rows, domain, literal)
  {
    if rows == [] {
    } else {
      var n := |rows| - 1;
      ColumnCountsVariants(rows[..n], domain, literal);
      BelowIff(rows[n], domain, literal);
      ExactIsFolded(literal, rows[n].path);
      hide IsBelow, FoldedPrefix, ExactPrefix;
    }
  }

  lemma {:induction false} NoVariantsIff(rows: seq<Row>, domain: string, literal: string)
    ensures CountVariants(rows, domain, literal) == 0 <==> forall i :: 0 <= i < |rows| ==>
      !IsVariant(rows[i], domain, literal)
  {
    if rows == [] {
    } else {
      var n := |rows| - 1;
      NoVariantsIff(rows[..n], domain, literal);
      assert forall i :: 0 <= i < n ==> rows[..n][i] == rows[i];
      hide IsVariant;
    }
  }

  /** A column's total is its own folder's exactly when no case-variant folder holds a row. */
  lemma ColumnIsExactIff(rows: seq<Row>, domain: string, literal: string)
    ensures Total(Column(rows, domain, literal)) == CountBelowExactly(rows, domain, literal)
       <==> forall i :: 0 <= i < |rows| ==> !IsVariant(rows[i], domain, literal)
  {
    ColumnCountsEveryRowOnce(rows, domain, literal);
    ColumnCountsVariants(rows, domain, literal);
    NoVariantsIff(rows, domain, literal);
    hide Column, IsVariant, Below;
  }

  // ---- Folder counts -----------------------------------------------------------------------

  /** Paths as a manifest writes them: no leading, trailing or doubled slash; empty for a domain's own directory
      row. */
  predicate Normal(path: string) {
    path == ""
    || (path[0] != '/' && path[|path| - 1] != '/'
        && forall i :: 0 <= i < |path| - 1 ==> !(path[i] == '/' && path[i + 1] == '/'))
  }

  predicate AllNormal(rows: seq<Row>) {
    forall i :: 0 <= i < |rows| ==> Normal(rows[i].path)
  }

  /** The rows named exactly by a path. */
  function CountExactly(rows: seq<Row>, domain: string, path: string): nat {
    if rows == [] then 0
    else
      var n := |rows| - 1;
      CountExactly(rows[..n], domain, path) + if Listed(rows[n], domain) && rows[n].path == path then 1 else 0
  }

  lemma {:induction false} SlashAtUnique(r: string, i: nat)
    requires i < |r| && r[i] == '/' && '/' !in r[..i]
    ensures SlashAt(r) == i
  {
    if i == 0 {
    } else {
      assert r[0] == r[..i][0];
      assert r[1..][..i - 1] == r[..i][1..];
      SlashAtUnique(r[1..], i - 1);
    }
  }

  lemma {:induction false} SlashAtNone(r: string)
    requires '/' !in r
    ensures SlashAt(r) == |r| && NameOf(r) == r
  {
    if r == "" {
    } else {
      SlashAtNone(r[1..]);
    }
  }

  /** The rest of a path falls in group `name` iff it is the name, or continues after a slash. */
  lemma NameIff(r: string, name: string)
    requires '/' !in name
    ensures NameOf(r) == name <==> r == name || ExactPrefix(name + "/", r)
    ensures HasSlash(r) && NameOf(r) == name <==> ExactPrefix(name + "/", r)
  {
    if ExactPrefix(name + "/", r) {
      assert r[..|name|] == (name + "/")[..|name|] == name && r[|name|] == (name + "/")[|name|];
      SlashAtUnique(r, |name|);
    } else if r == name {
      SlashAtNone(r);
    }
  }

  lemma PrefixOfPrefix(p: string, q: string, s: string)
    ensures ExactPrefix(p + q, s) <==> ExactPrefix(p, s) && ExactPrefix(q, s[|p|..])
  {
    if |p + q| <= |s| {
      assert s[..|p + q|] == s[..|p|] + s[|p|..][..|q|];
      if s[..|p + q|] == p + q {
        assert (p + q)[..|p|] == p && (p + q)[|p|..] == q;
        assert s[..|p + q|][..|p|] == s[..|p|] && s[..|p + q|][|p|..] == s[|p|..][..|q|];
      }
    }
  }

  /** One row: it is below p under `name` iff it is exactly p + name or lies below p + name + "/", never both. */
  lemma RowSplits(row: Row, domain: string, p: string, name: string)
    requires name != "" && '/' !in name && Normal(row.path)
    requires Listed(row, domain) && FoldedPrefix(p, row.path) ==> ExactPrefix(p, row.path)
    ensures (IsBelow(row, domain, p) && HasName(row, p, name))
       <==> (Listed(row, domain) && row.path == p + name) || IsBelowExactly(row, domain, p + name + "/")
    ensures !(row.path == p + name && IsBelowExactly(row, domain, p + name + "/"))
  {
    var q := p + name + "/";
    BelowIff(row, domain, p);
    ExactIsFolded(p, row.path);
    assert q == p + (name + "/");
    hide FoldedPrefix, IsBelow;
    if Listed(row, domain) && ExactPrefix(p, row.path) {
      var r := row.path[|p|..];
      assert row.path == p + r && Rest(row, p) == r;
      NameIff(r, name);
      PrefixOfPrefix(p, name + "/", row.path);
      assert row.path == p + name <==> r == name;
      assert |row.path| == |q| && ExactPrefix(q, row.path) ==> row.path == q;
      assert q[|q| - 1] == '/';
    } else if row.path == p + name {
      assert row.path[..|p|] == p;
    } else if ExactPrefix(q, row.path) {
      PrefixOfPrefix(p, name + "/", row.path);
    }
  }

  lemma {:induction false} NamedSplits(rows: seq<Row>, domain: string, p: string, name: string)
    requires name != "" && '/' !in name && AllNormal(rows) && CaseExact(rows, domain, p)
    ensures Named(Below(rows, domain, p), p, name)
         == CountExactly(rows, domain, p + name) + CountBelowExactly(rows, domain, p + name + "/")
  {
    if rows == [] {
    } else {
      var n := |rows| - 1;
      assert forall i :: 0 <= i < n ==> rows[..n][i] == rows[i];
      NamedSplits(rows[..n], domain, p, name);
      RowSplits(rows[n], domain, p, name);
      NamedAppend(Below(rows[..n], domain, p), rows[n], p, name);
      hide IsBelow, HasName, Normal, FoldedPrefix, ExactPrefix, IsBelowExactly;
    }
  }

  lemma NamedAppend(below: seq<Row>, row: Row, p: string, name: string)
    ensures Named(below + [row], p, name) == Named(below, p, name) + if HasName(row, p, name) then 1 else 0
    ensures below + [] == below
  {
    assert (below + [row])[..|below|] == below;
  }

  lemma {:induction false} NamedWitness(rows: seq<Row>, domain: string, p: string, name: string) returns (row: Row)
    requires Named(Below(rows, domain, p), p, name) > 0
    ensures row in rows && IsBelow(row, domain, p) && HasName(row, p, name)
  {
    var n := |rows| - 1;
    NamedAppend(Below(rows[..n], domain, p), rows[n], p, name);
    hide IsBelow, HasName;
    if IsBelow(rows[n], domain, p) && HasName(rows[n], p, name) {
      row := rows[n];
    } else {
      row := NamedWitness(rows[..n], domain, p, name);
    }
  }

  lemma LiteralEndsInSlash(prefix: string)
    ensures Literal(prefix) == "" || Literal(prefix)[|Literal(prefix)| - 1] == '/'
  {
  }

  /** Normal paths give names that are not empty and hold no slash. */
  lemma ProperName(rows: seq<Row>, domain: string, prefix: string, name: string)
    requires AllNormal(rows) && CaseExact(rows, domain, Literal(prefix))
    requires Named(Below(rows, domain, Literal(prefix)), Literal(prefix), name) > 0
    ensures name != "" && '/' !in name
  {
    var p := Literal(prefix);
    var row := NamedWitness(rows, domain, p, name);
    BelowIff(row, domain, p);
    LiteralEndsInSlash(prefix);
    hide IsBelow, FoldedPrefix;
    var i :| 0 <= i < |rows| && rows[i] == row;
    assert Normal(row.path) && ExactPrefix(p, row.path);
    assert p != "" ==> row.path[|p| - 1] == row.path[..|p|][|p| - 1];
    assert Rest(row, p)[0] == row.path[|p|] != '/';
  }

  /** A folder's count is the rows named exactly by its path plus the sum of the counts in its own column, exactly
      when no folder that differs from it by ASCII case alone holds a row. */
  lemma FolderCountIsSumIff(rows: seq<Row>, domain: string, prefix: string, c: Child)
    requires AllNormal(rows) && CaseExact(rows, domain, Literal(prefix)) && c in Column(rows, domain, Literal(prefix))
    ensures var path := Literal(prefix) + c.name;
      c.count == CountExactly(rows, domain, path) + Total(Column(rows, domain, path + "/"))
      <==> forall i :: 0 <= i < |rows| ==> !IsVariant(rows[i], domain, path + "/")
  {
    var p := Literal(prefix);
    ColumnCountsEveryRowOnce(rows, domain, p);
    ColumnIsExactIff(rows, domain, p + c.name + "/");
    ProperName(rows, domain, prefix, c.name);
    NamedSplits(rows, domain, p, c.name);
    hide Column, Below, CaseExact, Literal, IsVariant;
  }

  const LEAK: seq<Row> := [Row("1", "d", "Foo/a", FILE_FLAG), Row("2", "d", "foo/b", FILE_FLAG)]

  lemma BelowBoth(a: Row, b: Row, domain: string, literal: string)
    requires IsBelow(a, domain, literal) && IsBelow(b, domain, literal)
    ensures Below([a, b], domain, literal) == [a, b]
  {
    hide IsBelow;
    assert [a, b][..1] == [a] && [a][..0] == [];
    assert Below([], domain, literal) == [] && Below([a], domain, literal) == [a];
  }

  lemma LeakBelow(literal: string)
    requires literal == "" || literal == "Foo/"
    ensures Below(LEAK, "d", literal) == LEAK
  {
    BelowIff(LEAK[0], "d", literal);
    BelowIff(LEAK[1], "d", literal);
    assert FoldedPrefix(literal, "Foo/a") && FoldedPrefix(literal, "foo/b");
    hide IsBelow, Below;
    BelowBoth(LEAK[0], LEAK[1], "d", literal);
  }

  lemma LeakNames()
    ensures Named(LEAK, "", "Foo") == 1 && CountExactly(LEAK, "d", "Foo") == 0
  {
    assert "Foo/a" == "Foo" + "/a" && "foo/b" == "foo" + "/b";
    SlashAtUnique("Foo/a", 3);
    SlashAtUnique("foo/b", 3);
    assert "Foo/a"[0..] == "Foo/a" && "foo/b"[0..] == "foo/b";
    assert "foo/b"[..3] == "foo" && "foo"[0] != "Foo"[0];
    hide SlashAt;
    assert !HasName(LEAK[1], "", "Foo") && HasName(LEAK[0], "", "Foo");
    assert LEAK[..1] == [LEAK[0]] && [LEAK[0]][..0] == [];
    hide HasName;
    assert Named([], "", "Foo") == 0 && Named([LEAK[0]], "", "Foo") == 1;
    assert CountExactly([], "d", "Foo") == 0 && CountExactly([LEAK[0]], "d", "Foo") == 0;
  }

  lemma LeakIsNormal()
    ensures AllNormal(LEAK) && CaseExact(LEAK, "d", "")
  {
    forall i | 0 <= i < |LEAK| ensures Normal(LEAK[i].path) && ExactPrefix("", LEAK[i].path) {
      assert LEAK[i].path == "Foo/a" || LEAK[i].path == "foo/b";
    }
    hide Normal;
  }

  /** The smallest leak: two rows make two folders of one file each, and the column of the first counts both files. */
  lemma CaseLeak()
    ensures AllNormal(LEAK) && CaseExact(LEAK, "d", "") && "Foo" in NamesOf(Column(LEAK, "d", ""))
    ensures forall c :: c in Column(LEAK, "d", "") && c.name == "Foo" ==> c.count == 1
    ensures CountExactly(LEAK, "d", "Foo") == 0 && Total(Column(LEAK, "d", "Foo/")) == 2
  {
    LeakNames();
    LeakIsNormal();
    LeakBelow("");
    LeakBelow("Foo/");
    ColumnCountsEveryRowOnce(LEAK, "d", "");
    ColumnCountsEveryRowOnce(LEAK, "d", "Foo/");
    hide Column, Below, Named, CountExactly, AllNormal, CaseExact, Sorted, DistinctNames, AnyDeeper, LeastId;
  }

  // ---- What the pages show -------------------------------------------------------------------

  /** What the pages of a column show: all but the backup's own bookkeeping files. */
  function Shown(rows: seq<Row>, domain: string, literal: string): seq<Child> {
    WithoutMeta(Column(rows, domain, literal), literal)
  }

  lemma {:induction false} NamesAppend(cs: seq<Child>, c: Child, name: string)
    ensures NamesOf(cs + [c]) == NamesOf(cs) + {c.name}
    ensures FolderIn(cs + [c], name) <==> FolderIn(cs, name) || (c.name == name && c.isFolder)
  {
    if cs == [] {
      assert cs + [c] == [c];
    } else {
      assert (cs + [c])[1..] == cs[1..] + [c];
      NamesAppend(cs[1..], c, name);
    }
  }

  /** Every folder is shown, and every file that is not the backup's own. */
  lemma {:induction false} ShownNames(cs: seq<Child>, literal: string, name: string)
    ensures FolderIn(WithoutMeta(cs, literal), name) <==> FolderIn(cs, name)
    ensures name in NamesOf(WithoutMeta(cs, literal))
       <==> FolderIn(cs, name) || (name in NamesOf(cs) && literal + name !in META_FILES)
  {
    hide META_FILES;
    if cs == [] {
    } else {
      var n := |cs| - 1;
      ShownNames(cs[..n], literal, name);
      assert cs == cs[..n] + [cs[n]];
      NamesAppend(cs[..n], cs[n], name);
      NamesAppend(WithoutMeta(cs[..n], literal), cs[n], name);
      assert WithoutMeta(cs[..n], literal) + [] == WithoutMeta(cs[..n], literal);
    }
  }

  lemma {:induction false} NamesHaveNoSlash(below: seq<Row>, literal: string, name: string)
    requires Named(below, literal, name) > 0
    ensures '/' !in name
  {
    var n := |below| - 1;
    if !HasName(below[n], literal, name) {
      NamesHaveNoSlash(below[..n], literal, name);
    }
  }

  lemma {:induction false} RowIsCounted(rows: seq<Row>, domain: string, literal: string, row: Row)
    requires row in rows && IsBelow(row, domain, literal)
    ensures Named(Below(rows, domain, literal), literal, NameOf(Rest(row, literal))) > 0
    ensures HasSlash(Rest(row, literal)) ==>
      AnyDeeper(Below(rows, domain, literal), literal, NameOf(Rest(row, literal)))
  {
    hide IsBelow, NameOf, HasSlash, Rest;
    var n, name := |rows| - 1, NameOf(Rest(row, literal));
    var before := Below(rows[..n], domain, literal);
    NamedAppend(before, rows[n], literal, name);
    DeeperAppend(before, rows[n], literal, name);
    if row != rows[n] {
      assert row in rows[..n];
      RowIsCounted(rows[..n], domain, literal, row);
    }
    hide Named, AnyDeeper;
  }

  lemma DeeperAppend(below: seq<Row>, row: Row, p: string, name: string)
    ensures AnyDeeper(below + [row], p, name) <==>
      AnyDeeper(below, p, name) || (HasName(row, p, name) && HasSlash(Rest(row, p)))
  {
    assert (below + [row])[..|below|] == below;
  }

  lemma ColumnNames(rows: seq<Row>, domain: string, literal: string, name: string)
    ensures name in NamesOf(Column(rows, domain, literal)) <==> Named(Below(rows, domain, literal), literal, name) > 0
    ensures FolderIn(Column(rows, domain, literal), name) <==> AnyDeeper(Below(rows, domain, literal), literal, name)
    ensures name in NamesOf(Column(rows, domain, literal)) ==> '/' !in name
  {
    var g := GroupByName(Below(rows, domain, literal), literal);
    GroupFacts(Below(rows, domain, literal), literal, name);
    SortFacts(g, name);
    if Named(Below(rows, domain, literal), literal, name) > 0 {
      NamesHaveNoSlash(Below(rows, domain, literal), literal, name);
    }
    hide GroupByName, Sort, Below, Named;
  }

  lemma {:induction false} FolderIsNamed(cs: seq<Child>, name: string)
    ensures FolderIn(cs, name) ==> name in NamesOf(cs)
  {
    if cs == [] {
    } else {
      FolderIsNamed(cs[1..], name);
    }
  }

  lemma ShownColumn(rows: seq<Row>, domain: string, literal: string, name: string)
    ensures FolderIn(Shown(rows, domain, literal), name) <==> FolderIn(Column(rows, domain, literal), name)
    ensures name in NamesOf(Shown(rows, domain, literal)) <==>
      || FolderIn(Column(rows, domain, literal), name)
      || (name in NamesOf(Column(rows, domain, literal)) && literal + name !in META_FILES)
    ensures name in NamesOf(Shown(rows, domain, literal)) ==> '/' !in name
  {
    ShownNames(Column(rows, domain, literal), literal, name);
    FolderIsNamed(Column(rows, domain, literal), name);
    ColumnNames(rows, domain, literal, name);
    hide Column, NamesOf, FolderIn, META_FILES;
  }

  /** A name in a column: not empty and without a slash, below a prefix as pages build it. */
  predicate IsPlace(literal: string, name: string) {
    name != "" && '/' !in name && (literal == "" || (literal[0] != '/' && literal[|literal| - 1] == '/'))
  }

  lemma PlaceIsClean(literal: string, name: string)
    requires IsPlace(literal, name)
    ensures Strip(literal + name) == literal + name
  {
    var s := literal + name;
    assert s[0] != '/' by {
      if literal == "" {
        assert s == name && name[0] in name;
      }
    }
    assert s[|s| - 1] == name[|name| - 1] && name[|name| - 1] in name;
  }

  /** The prefix a click on folder `name` sends is the prefix of the next column. */
  lemma NextPrefix(literal: string, name: string)
    requires IsPlace(literal, name)
    ensures Literal(literal + name) == literal + name + "/" && IsPlace(literal + name + "/", name)
  {
    PlaceIsClean(literal, name);
    var next := literal + name + "/";
    assert next[|next| - 1] == '/' && name[0] in name;
    assert next[0] == if literal == "" then name[0] else literal[0];
    hide Strip;
  }

  // ---- Pages -------------------------------------------------------------------------------

  function Pages(col: seq<Child>, count: nat, pageSize: nat): seq<Child> {
    if count == 0 then [] else Pages(col, count - 1, pageSize) + Slice(col, count, pageSize)
  }

  lemma SliceBetween(col: seq<Child>, page: nat, pageSize: nat)
    requires 1 <= page
    ensures var from, to := (page - 1) * pageSize, page * pageSize;
      && 0 <= from <= to
      && Slice(col, page, pageSize) == col[Min(from, |col|)..Min(to, |col|)]
  {
    assert (page - 1) * pageSize + pageSize == page * pageSize;
  }

  lemma {:induction false} PagesArePrefix(col: seq<Child>, count: nat, pageSize: nat)
    ensures 0 <= count * pageSize && Pages(col, count, pageSize) == col[..Min(count * pageSize, |col|)]
  {
    if count == 0 {
    } else {
      PagesArePrefix(col, count - 1, pageSize);
      SliceBetween(col, count, pageSize);
      hide Slice;
      JoinCuts(col, (count - 1) * pageSize, count * pageSize);
    }
  }

  lemma JoinCuts(col: seq<Child>, from: int, to: int)
    requires 0 <= from <= to
    ensures col[..Min(from, |col|)] + col[Min(from, |col|)..Min(to, |col|)] == col[..Min(to, |col|)]
  {
  }

  lemma {:induction false} WithoutMetaConcat(a: seq<Child>, b: seq<Child>, literal: string)
    ensures WithoutMeta(a + b, literal) == WithoutMeta(a, literal) + WithoutMeta(b, literal)
    decreases |b|
  {
    hide META_FILES;
    if b == [] {
      assert a + b == a;
    } else {
      var n := |b| - 1;
      assert (a + b)[..|a| + n] == a + b[..n] && (a + b)[|a| + n] == b[n];
      WithoutMetaConcat(a, b[..n], literal);
    }
  }

  /** What the first `count` pages show. */
  function ShownPages(col: seq<Child>, count: nat, pageSize: nat, literal: string): seq<PageRow> {
    if count == 0 then []
    else ShownPages(col, count - 1, pageSize, literal) + PageRows(col, literal, count, pageSize)
  }

  lemma RowsOfConcat(a: seq<Child>, b: seq<Child>)
    ensures RowsOf(a + b) == RowsOf(a) + RowsOf(b)
  {
  }

  lemma {:induction false} ShownPagesAreFiltered(col: seq<Child>, count: nat, pageSize: nat, literal: string)
    ensures ShownPages(col, count, pageSize, literal) == RowsOf(WithoutMeta(Pages(col, count, pageSize), literal))
    decreases count
  {
    hide Slice, WithoutMeta, META_FILES, RowsOf;
    if count == 0 {
      NothingShown(literal);
    } else {
      ShownPagesAreFiltered(col, count - 1, pageSize, literal);
      var before, page := Pages(col, count - 1, pageSize), Slice(col, count, pageSize);
      WithoutMetaConcat(before, page, literal);
      RowsOfConcat(WithoutMeta(before, literal), WithoutMeta(page, literal));
    }
  }

  lemma NothingShown(literal: string)
    ensures WithoutMeta([], literal) == [] && RowsOf([]) == []
  {
  }

  lemma CutShown(col: seq<Child>, cut: nat, literal: string)
    requires cut <= |col|
    ensures RowsOf(WithoutMeta(col[..cut], literal)) <= RowsOf(WithoutMeta(col, literal))
    ensures cut == |col| ==> col[..cut] == col
  {
    hide WithoutMeta, RowsOf;
    assert col == col[..cut] + col[cut..];
    WithoutMetaConcat(col[..cut], col[cut..], literal);
    RowsOfConcat(WithoutMeta(col[..cut], literal), WithoutMeta(col[cut..], literal));
  }

  /** Consecutive pages join to the beginning of the column, as the query pages it and as the pages show it; they
      are the whole of it exactly when the last of them has no more. */
  lemma PagesConcatenate(col: seq<Child>, count: nat, pageSize: nat, literal: string)
    ensures Pages(col, count, pageSize) <= col
    ensures ShownPages(col, count, pageSize, literal) <= RowsOf(WithoutMeta(col, literal))
    ensures Pages(col, count, pageSize) == col <==> !ChildPage([], |col|, count, pageSize).HasMore()
    ensures !ChildPage([], |col|, count, pageSize).HasMore() ==>
      ShownPages(col, count, pageSize, literal) == RowsOf(WithoutMeta(col, literal))
  {
    hide META_FILES, WithoutMeta, Pages, ShownPages, RowsOf;
    PagesArePrefix(col, count, pageSize);
    ShownPagesAreFiltered(col, count, pageSize, literal);
    CutShown(col, Min(count * pageSize, |col|), literal);
  }
}
