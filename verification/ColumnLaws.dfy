/** Why the derived columns form a tree, and exactly when ASCII case breaks it. */
module ColumnLaws {
  import opened Wrappers
  import opened Timestamps
  import opened Columns

  // ---- Text order --------------------------------------------------------------------------

  lemma {:induction false} TextTotal(a: string, b: string)
    ensures TextLess(a, b) || a == b || TextLess(b, a)
  {
    if a != "" && b != "" && a[0] == b[0] {
      TextTotal(a[1..], b[1..]);
      assert a == [a[0]] + a[1..] && b == [b[0]] + b[1..];
    }
  }

  lemma {:induction false} TextTransitive(a: string, b: string, c: string)
    requires TextLess(a, b) && TextLess(b, c)
    ensures TextLess(a, c)
  {
    if a != "" && a[0] == b[0] == c[0] {
      TextTransitive(a[1..], b[1..], c[1..]);
    }
  }

  lemma BeforeOrder(a: Child, b: Child, c: Child)
    ensures Before(a, b) && Before(b, c) ==> Before(a, c)
    ensures Before(a, b) || Before(b, a) || (a.isFolder == b.isFolder && a.name == b.name)
  {
    TextTotal(a.name, b.name);
    if TextLess(a.name, b.name) && TextLess(b.name, c.name) {
      TextTransitive(a.name, b.name, c.name);
    }
  }

  // ---- Grouping ----------------------------------------------------------------------------

  function NamesOf(col: seq<Child>): set<string> {
    if col == [] then {} else {col[0].name} + NamesOf(col[1..])
  }

  predicate DistinctNames(col: seq<Child>) {
    col == [] || (col[0].name !in NamesOf(col[1..]) && DistinctNames(col[1..]))
  }

  function Total(col: seq<Child>): nat {
    if col == [] then 0 else col[0].count + Total(col[1..])
  }

  function CountIn(col: seq<Child>, name: string): nat {
    if col == [] then 0 else (if col[0].name == name then col[0].count else 0) + CountIn(col[1..], name)
  }

  predicate FolderIn(col: seq<Child>, name: string) {
    col != [] && ((col[0].name == name && col[0].isFolder) || FolderIn(col[1..], name))
  }

  function IdIn(col: seq<Child>, name: string): Option<string> {
    if col == [] then None else if col[0].name == name then Some(col[0].fileId) else IdIn(col[1..], name)
  }

  predicate HasName(row: Row, literal: string, name: string) {
    NameOf(Rest(row, literal)) == name
  }

  /** How many of the rows fall in the group. */
  function Named(below: seq<Row>, literal: string, name: string): nat {
    if below == [] then 0
    else
      var n := |below| - 1;
      Named(below[..n], literal, name) + if HasName(below[n], literal, name) then 1 else 0
  }

  predicate AnyDeeper(below: seq<Row>, literal: string, name: string) {
    below != [] &&
    var n := |below| - 1;
    AnyDeeper(below[..n], literal, name) || (HasName(below[n], literal, name) && HasSlash(Rest(below[n], literal)))
  }

  /** The least file id of the group. */
  function LeastId(below: seq<Row>, literal: string, name: string): Option<string> {
    if below == [] then None
    else
      var n := |below| - 1;
      var before := LeastId(below[..n], literal, name);
      if !HasName(below[n], literal, name) then before
      else if before.None? then Some(below[n].fileId)
      else Some(MinText(before.value, below[n].fileId))
  }

  lemma {:induction false} AddToFacts(col: seq<Child>, name: string, slash: bool, fileId: string, m: string)
    ensures var grown := AddTo(col, name, slash, fileId);
      && NamesOf(grown) == NamesOf(col) + {name}
      && (DistinctNames(col) ==> DistinctNames(grown))
      && Total(grown) == Total(col) + 1
      && CountIn(grown, m) == CountIn(col, m) + (if m == name then 1 else 0)
      && (FolderIn(grown, m) <==> FolderIn(col, m) || (m == name && slash))
      && IdIn(grown, m) == (if m != name then IdIn(col, m)
                           else if IdIn(col, m).None? then Some(fileId) else Some(MinText(IdIn(col, m).value, fileId)))
  {
    var grown := AddTo(col, name, slash, fileId);
    if col == [] {
      assert grown[1..] == [];
    } else if col[0].name == name {
      assert grown[1..] == col[1..];
    } else {
      AddToFacts(col[1..], name, slash, fileId, m);
      assert grown[1..] == AddTo(col[1..], name, slash, fileId);
    }
  }

  lemma {:induction false} GroupFacts(below: seq<Row>, literal: string, m: string)
    ensures var col := GroupByName(below, literal);
      && DistinctNames(col) && Total(col) == |below|
      && CountIn(col, m) == Named(below, literal, m)
      && (FolderIn(col, m) <==> AnyDeeper(below, literal, m))
      && IdIn(col, m) == LeastId(below, literal, m)
      && (m in NamesOf(col) <==> Named(below, literal, m) > 0)
  {
    if below == [] {
    } else {
      var n := |below| - 1;
      var r := Rest(below[n], literal);
      GroupFacts(below[..n], literal, m);
      AddToFacts(GroupByName(below[..n], literal), NameOf(r), HasSlash(r), below[n].fileId, m);
      hide AddTo, Rest, NameOf, HasSlash;
    }
  }

  lemma {:induction false} InsertFacts(c: Child, col: seq<Child>, m: string)
    ensures var grown := InsertSorted(c, col);
      && NamesOf(grown) == NamesOf(col) + {c.name} && |grown| == |col| + 1
      && Total(grown) == Total(col) + c.count
      && CountIn(grown, m) == CountIn(col, m) + (if m == c.name then c.count else 0)
      && (FolderIn(grown, m) <==> FolderIn(col, m) || (m == c.name && c.isFolder))
  {
    var grown := InsertSorted(c, col);
    if col == [] {
      assert grown[1..] == [];
    } else if Before(c, col[0]) {
      assert grown[1..] == col;
    } else {
      InsertFacts(c, col[1..], m);
      assert grown[1..] == InsertSorted(c, col[1..]);
    }
  }

  lemma {:induction false} InsertKeepsElements(c: Child, col: seq<Child>)
    ensures multiset(InsertSorted(c, col)) == multiset(col) + multiset{c}
  {
    if col != [] && !Before(c, col[0]) {
      InsertKeepsElements(c, col[1..]);
      assert col == [col[0]] + col[1..];
    }
  }

  lemma {:induction false} InsertKeepsDistinct(c: Child, col: seq<Child>, m: string)
    requires c.name !in NamesOf(col) && DistinctNames(col)
    ensures var grown := InsertSorted(c, col);
      && NamesOf(grown) == NamesOf(col) + {c.name} && DistinctNames(grown)
      && IdIn(grown, m) == if m == c.name then Some(c.fileId) else IdIn(col, m)
  {
    var grown := InsertSorted(c, col);
    if col == [] {
      assert grown[1..] == [];
    } else if Before(c, col[0]) {
      assert grown[1..] == col;
    } else {
      InsertKeepsDistinct(c, col[1..], m);
      assert grown[1..] == InsertSorted(c, col[1..]) && grown[0] == col[0];
    }
  }

  lemma {:induction false} SortFacts(col: seq<Child>, m: string)
    requires DistinctNames(col)
    ensures var s := Sort(col);
      && NamesOf(s) == NamesOf(col) && |s| == |col| && DistinctNames(s) && Total(s) == Total(col)
      && CountIn(s, m) == CountIn(col, m) && (FolderIn(s, m) <==> FolderIn(col, m)) && IdIn(s, m) == IdIn(col, m)
      && multiset(s) == multiset(col)
  {
    if col == [] {
    } else {
      var t := Sort(col[1..]);
      SortFacts(col[1..], m);
      InsertFacts(col[0], t, m);
      InsertKeepsElements(col[0], t);
      InsertKeepsDistinct(col[0], t, m);
      assert col == [col[0]] + col[1..];
    }
  }

  /** Folders first, then by name; strictly, so the order is the only one. */
  predicate Sorted(col: seq<Child>) {
    forall i, j :: 0 <= i < j < |col| ==> Before(col[i], col[j])
  }

  lemma {:induction false} InsertKeepsSorted(c: Child, col: seq<Child>)
    requires Sorted(col) && c.name !in NamesOf(col)
    ensures Sorted(InsertSorted(c, col))
  {
    if col == [] {
    } else if Before(c, col[0]) {
      forall j | 0 <= j < |col| ensures Before(c, col[j]) {
        BeforeOrder(c, col[0], col[j]);
      }
      hide Before;
    } else {
      InsertKeepsSorted(c, col[1..]);
      BeforeOrder(c, col[0], c);
      var rest := InsertSorted(c, col[1..]);
      InsertKeepsElements(c, col[1..]);
      forall j | 0 <= j < |rest| ensures Before(col[0], rest[j]) {
        assert rest[j] in multiset(rest);
        if rest[j] != c {
          assert rest[j] in col[1..];
        }
      }
      hide Before, InsertSorted;
    }
  }

  lemma {:induction false} SortIsSorted(col: seq<Child>)
    requires DistinctNames(col)
    ensures Sorted(Sort(col))
  {
    if col == [] {
    } else {
      SortIsSorted(col[1..]);
      SortFacts(col[1..], "");
      InsertKeepsSorted(col[0], Sort(col[1..]));
    }
  }

  lemma {:induction false} EntryIsItsGroup(col: seq<Child>, c: Child)
    requires DistinctNames(col) && c in col
    ensures c.name in NamesOf(col) && c.count == CountIn(col, c.name)
    ensures (c.isFolder <==> FolderIn(col, c.name)) && IdIn(col, c.name) == Some(c.fileId)
  {
    if c == col[0] {
      AbsentName(col[1..], c.name);
    } else {
      EntryIsItsGroup(col[1..], c);
    }
  }

  lemma {:induction false} AbsentName(col: seq<Child>, name: string)
    requires name !in NamesOf(col)
    ensures CountIn(col, name) == 0 && !FolderIn(col, name)
  {
    if col == [] {
    } else {
      AbsentName(col[1..], name);
    }
  }

  /** Every row below a prefix is counted in exactly one child, under its own name; the order is folders first, then
      name. */
  lemma ColumnCountsEveryRowOnce(rows: seq<Row>, domain: string, literal: string)
    ensures var below, col := Below(rows, domain, literal), Column(rows, domain, literal);
      && Sorted(col) && DistinctNames(col) && Total(col) == |below|
      && (forall name :: name in NamesOf(col) <==> Named(below, literal, name) > 0)
      && (forall c :: c in col ==>
           && c.count == Named(below, literal, c.name) > 0
           && (c.isFolder <==> AnyDeeper(below, literal, c.name))
           && Some(c.fileId) == LeastId(below, literal, c.name))
  {
    var below, col := Below(rows, domain, literal), Column(rows, domain, literal);
    var g := GroupByName(below, literal);
    GroupFacts(below, literal, "");
    SortFacts(g, "");
    SortIsSorted(g);
    hide Sort, GroupByName, Sorted, DistinctNames;
    forall name ensures name in NamesOf(col) <==> Named(below, literal, name) > 0 {
      GroupFacts(below, literal, name);
      SortFacts(g, name);
    }
    forall c | c in col
      ensures c.count == Named(below, literal, c.name) > 0
      ensures c.isFolder <==> AnyDeeper(below, literal, c.name)
      ensures Some(c.fileId) == LeastId(below, literal, c.name)
    {
      GroupFacts(below, literal, c.name);
      SortFacts(g, c.name);
      EntryIsItsGroup(col, c);
    }
  }
}
