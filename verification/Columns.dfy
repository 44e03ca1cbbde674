/**
 The column browser: a tree derived from flat (domain, relativePath) rows by cutting a prefix and
 grouping by what follows up to the next slash. LIKE folds ASCII case; GROUP BY does not.
 */
module Columns {
  import opened Wrappers
  import opened Timestamps
  import opened Like

  const FILE_FLAG: int := 1
  const DIRECTORY_FLAG: int := 2
  const META_FILES: set<string> :=
    {"Manifest.db", "Manifest.db-shm", "Manifest.db-wal", "Info.plist", "Status.plist", "Manifest.plist"}

  datatype Row = Row(fileId: string, domain: string, path: string, flags: int)

  /** One row of the grouped query; fileId is the least id of the group. */
  datatype Child = Child(name: string, isFolder: bool, count: nat, fileId: string)

  /** One row of a page: a folder has no file id. */
  datatype PageRow = PageRow(name: string, isFolder: bool, count: nat, fileId: Option<string>)

  datatype ChildPage = ChildPage(rows: seq<PageRow>, total: nat, page: int, pageSize: int) {
    predicate HasMore() {
      page * pageSize < total
    }
  }

  // ---- Prefixes ----------------------------------------------------------------------------

  function StripLeft(s: string): string {
    if s != "" && s[0] == '/' then StripLeft(s[1..]) else s
  }

  function StripRight(s: string): string {
    if s != "" && s[|s| - 1] == '/' then StripRight(s[..|s| - 1]) else s
  }

  function Strip(s: string): string {
    StripRight(StripLeft(s))
  }

  predicate AllSlashes(s: string) {
    forall i :: 0 <= i < |s| ==> s[i] == '/'
  }

  lemma {:induction false} StripLeftIs(s: string)
    ensures exists a :: AllSlashes(a) && s == a + StripLeft(s)
    ensures StripLeft(s) == "" || StripLeft(s)[0] != '/'
  {
    if s != "" && s[0] == '/' {
      StripLeftIs(s[1..]);
      var a :| AllSlashes(a) && s[1..] == a + StripLeft(s[1..]);
      assert s == "/" + a + StripLeft(s) && AllSlashes("/" + a);
    } else {
      assert s == "" + s && AllSlashes("");
    }
  }

  lemma {:induction false} StripRightIs(s: string)
    ensures exists b :: AllSlashes(b) && s == StripRight(s) + b
    ensures StripRight(s) == "" || (StripRight(s)[|StripRight(s)| - 1] != '/' && StripRight(s)[0] == s[0])
  {
    if s != "" && s[|s| - 1] == '/' {
      var n := |s| - 1;
      StripRightIs(s[..n]);
      var b :| AllSlashes(b) && s[..n] == StripRight(s[..n]) + b;
      assert s == StripRight(s) + (b + "/") && AllSlashes(b + "/");
    } else {
      assert s == s + "" && AllSlashes("");
    }
  }

  /** Stripping takes away the outer slashes and nothing else. */
  lemma StripIs(s: string)
    ensures var core := Strip(s);
      && (core == "" || (core[0] != '/' && core[|core| - 1] != '/'))
      && exists a, b :: AllSlashes(a) && AllSlashes(b) && s == a + core + b
  {
    StripLeftIs(s);
    StripRightIs(StripLeft(s));
    var a :| AllSlashes(a) && s == a + StripLeft(s);
    var b :| AllSlashes(b) && StripLeft(s) == Strip(s) + b;
    assert s == a + Strip(s) + b;
    hide StripLeft, StripRight;
  }

  /** The literal of _prefix_params: empty at the top, else ending in exactly one slash. */
  function Literal(prefix: string): string {
    if Strip(prefix) == "" then "" else Strip(prefix) + "/"
  }

  function SlashAt(r: string): (i: nat)
    ensures i <= |r| && (i < |r| ==> r[i] == '/') && '/' !in r[..i]
  {
    if r == "" || r[0] == '/' then 0 else 1 + SlashAt(r[1..])
  }

  function NameOf(r: string): string {
    r[..SlashAt(r)]
  }

  predicate HasSlash(r: string) {
    SlashAt(r) < |r|
  }

  // ---- The grouped query -------------------------------------------------------------------

  predicate Selected(row: Row, domain: string, literal: string) {
    row.domain == domain && (row.flags == FILE_FLAG || row.flags == DIRECTORY_FLAG)
    && (literal == "" || Matches(Escape(literal) + "%", row.path))
  }

  /** substr(relativePath, length + 1). */
  function Rest(row: Row, literal: string): string {
    if |literal| <= |row.path| then row.path[|literal|..] else ""
  }

  predicate IsBelow(row: Row, domain: string, literal: string) {
    Selected(row, domain, literal) && Rest(row, literal) != ""
  }

  function Below(rows: seq<Row>, domain: string, literal: string): seq<Row> {
    if rows == [] then []
    else
      var n := |rows| - 1;
      Below(rows[..n], domain, literal) + if IsBelow(rows[n], domain, literal) then [rows[n]] else []
  }

  function MinText(a: string, b: string): string {
    if TextLess(b, a) then b else a
  }

  /** One more row for its group: MAX, COUNT and MIN updated, or a new group opened. */
  function AddTo(col: seq<Child>, name: string, slash: bool, fileId: string): seq<Child> {
    if col == [] then [Child(name, slash, 1, fileId)]
    else if col[0].name == name then
      [Child(name, col[0].isFolder || slash, col[0].count + 1, MinText(col[0].fileId, fileId))] + col[1..]
    else [col[0]] + AddTo(col[1..], name, slash, fileId)
  }

  function GroupByName(below: seq<Row>, literal: string): seq<Child> {
    if below == [] then []
    else
      var n := |below| - 1;
      var r := Rest(below[n], literal);
      AddTo(GroupByName(below[..n], literal), NameOf(r), HasSlash(r), below[n].fileId)
  }

  /** ORDER BY is_folder DESC, name. */
  predicate Before(a: Child, b: Child) {
    (a.isFolder && !b.isFolder) || (a.isFolder == b.isFolder && TextLess(a.name, b.name))
  }

  function InsertSorted(c: Child, col: seq<Child>): seq<Child> {
    if col == [] then [c]
    else if Before(c, col[0]) then [c] + col
    else [col[0]] + InsertSorted(c, col[1..])
  }

  function Sort(col: seq<Child>): seq<Child> {
    if col == [] then [] else InsertSorted(col[0], Sort(col[1..]))
  }

  function Column(rows: seq<Row>, domain: string, literal: string): seq<Child> {
    Sort(GroupByName(Below(rows, domain, literal), literal))
  }

  /** LIMIT ? OFFSET ?. */
  function Slice(col: seq<Child>, page: int, pageSize: int): seq<Child>
    requires 1 <= page && 0 <= pageSize
  {
    var from := Min((page - 1) * pageSize, |col|);
    var to := Min(page * pageSize, |col|);
    if from <= to && 0 <= from then col[from..to] else []
  }

  function WithoutMeta(cs: seq<Child>, literal: string): seq<Child> {
    if cs == [] then []
    else
      var n := |cs| - 1;
      WithoutMeta(cs[..n], literal) + if !cs[n].isFolder && literal + cs[n].name in META_FILES then [] else [cs[n]]
  }

  function RowsOf(cs: seq<Child>): seq<PageRow> {
    seq(|cs|, i requires 0 <= i < |cs| =>
      PageRow(cs[i].name, cs[i].isFolder, cs[i].count, if cs[i].isFolder then None else Some(cs[i].fileId)))
  }

  /** What one page of a column shows. */
  function PageRows(col: seq<Child>, literal: string, page: int, pageSize: int): seq<PageRow>
    requires 1 <= page && 0 <= pageSize
  {
    RowsOf(WithoutMeta(Slice(col, page, pageSize), literal))
  }

  /** One column page; the backup's own bookkeeping files are left out of the rows but not of the total. */
  method Children(rows: seq<Row>, domain: string, prefix: string, page: int, pageSize: nat) returns (p: ChildPage)
    ensures var col, at := Column(rows, domain, Literal(prefix)), if page < 1 then 1 else page;
      p == ChildPage(PageRows(col, Literal(prefix), at, pageSize), |col|, at, pageSize)
  {
    var literal := Literal(prefix);
    var at := if page < 1 then 1 else page;
    var col := Column(rows, domain, literal);
    var found := Slice(col, at, pageSize);
    var out := [];
    var i := 0;
    while i < |found|
      invariant 0 <= i <= |found| && out == RowsOf(WithoutMeta(found[..i], literal))
    {
      var c := found[i];
      assert found[..i + 1][..i] == found[..i];
      if c.isFolder || literal + c.name !in META_FILES {
        out := out + [PageRow(c.name, c.isFolder, c.count, if c.isFolder then None else Some(c.fileId))];
      }
      i := i + 1;
    }
    assert found[..i] == found;
    p := ChildPage(out, |col|, at, pageSize);
  }
}
