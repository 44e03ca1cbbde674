/** Which chains of columns end at a file's entry, and exactly when there is only one. */
module ColumnChains {
  import opened Like
  import opened Columns
  import opened ColumnLaws
  import opened ColumnTree
  import opened PageLaws

  function Components(path: string): seq<string>
    decreases |path|
  {
    if !HasSlash(path) then [path] else [NameOf(path)] + Components(path[SlashAt(path) + 1..])
  }

  /** Opening the named folders one after another, from a prefix on, leads to a column whose pages list the row: as a
      member of the entry named by all that is left of its path. */
  predicate Shows(rows: seq<Row>, domain: string, literal: string, names: seq<string>, row: Row)
    decreases |names|
  {
    names != [] &&
    (if |names| == 1 then
       && IsBelow(row, domain, literal) && Rest(row, literal) == names[0]
       && ListsEntry(RowsOf(Shown(rows, domain, literal)), names[0])
     else ListsFolder(RowsOf(Shown(rows, domain, literal)), names[0])
          && Shows(rows, domain, literal + names[0] + "/", names[1..], row))
  }

  lemma ShowsLast(rows: seq<Row>, domain: string, literal: string, name: string, row: Row)
    ensures Shows(rows, domain, literal, [name], row)
       <==> && IsBelow(row, domain, literal) && Rest(row, literal) == name
            && name in NamesOf(Shown(rows, domain, literal))
  {
    NamesAre(Shown(rows, domain, literal), name);
    hide IsBelow, Rest, Shown, NamesOf, ListsEntry, RowsOf;
  }

  lemma ShowsStep(rows: seq<Row>, domain: string, literal: string, name: string, names: seq<string>, row: Row)
    requires FolderIn(Shown(rows, domain, literal), name) && Shows(rows, domain, literal + name + "/", names, row)
    ensures Shows(rows, domain, literal, [name] + names, row) && names != []
  {
    assert ([name] + names)[1..] == names;
    NamesAre(Shown(rows, domain, literal), name);
    hide IsBelow, Rest, Shown, NamesOf, FolderIn, ListsEntry, ListsFolder, RowsOf;
  }

  // ---- Folded prefixes -----------------------------------------------------------------------

  lemma FoldKeepsSlash(c: char)
    ensures Fold(c) == '/' <==> c == '/'
  {
  }

  /** What folds to a cut of s is folded to by that cut's text, and has its slashes where s has. */
  lemma FoldedTurns(s: string, r: string, n: nat)
    requires n <= |s| && FoldedPrefix(s[..n], r)
    ensures FoldedPrefix(r[..n], s)
    ensures forall i :: 0 <= i < n ==> (r[i] == '/' <==> s[i] == '/')
  {
    FoldedPrefixAt(s[..n], r);
    FoldedPrefixAt(r[..n], s);
    forall i | 0 <= i < n ensures Fold(r[i]) == Fold(s[i]) && (r[i] == '/' <==> s[i] == '/') {
      assert s[..n][i] == s[i];
      FoldKeepsSlash(r[i]);
      FoldKeepsSlash(s[i]);
    }
    hide Fold, FoldedPrefix;
  }

  // ---- What one column shows -----------------------------------------------------------------

  /** A listed row that continues below the name makes it a folder of the column. */
  lemma FolderShown(rows: seq<Row>, domain: string, literal: string, name: string, r: Row)
    requires r in rows && Listed(r, domain) && FoldedPrefix(literal, r.path)
    requires '/' !in name && ExactPrefix(name + "/", r.path[|literal|..])
    ensures FolderIn(Shown(rows, domain, literal), name)
  {
    BelowIff(r, domain, literal);
    NameIff(Rest(r, literal), name);
    RowIsCounted(rows, domain, literal, r);
    ColumnNames(rows, domain, literal, name);
    ShownColumn(rows, domain, literal, name);
    hide Column, Below, Named, AnyDeeper, Shown, FolderIn, NamesOf, FoldedPrefix, IsBelow;
  }

  lemma {:induction false} DeeperWitness(rows: seq<Row>, domain: string, literal: string, name: string)
    returns (r: Row)
    requires AnyDeeper(Below(rows, domain, literal), literal, name)
    ensures r in rows && IsBelow(r, domain, literal) && HasName(r, literal, name) && HasSlash(Rest(r, literal))
  {
    var n := |rows| - 1;
    DeeperAppend(Below(rows[..n], domain, literal), rows[n], literal, name);
    NamedAppend(Below(rows[..n], domain, literal), rows[n], literal, name);
    hide IsBelow, HasName, HasSlash, Rest;
    if IsBelow(rows[n], domain, literal) && HasName(rows[n], literal, name) && HasSlash(Rest(rows[n], literal)) {
      r := rows[n];
    } else {
      r := DeeperWitness(rows[..n], domain, literal, name);
    }
  }

  /** A shown folder has a listed row below it. */
  lemma FolderHasRow(rows: seq<Row>, domain: string, literal: string, name: string) returns (r: Row)
    requires FolderIn(Shown(rows, domain, literal), name)
    ensures r in rows && Listed(r, domain) && FoldedPrefix(literal, r.path) && '/' !in name
    ensures ExactPrefix(name + "/", r.path[|literal|..])
  {
    FolderIsNamed(Shown(rows, domain, literal), name);
    ShownColumn(rows, domain, literal, name);
    ColumnNames(rows, domain, literal, name);
    hide Column, Below, AnyDeeper, Shown, FolderIn, NamesOf, FoldedPrefix, IsBelow;
    r := DeeperWitness(rows, domain, literal, name);
    BelowIff(r, domain, literal);
    NameIff(Rest(r, literal), name);
  }

  lemma EntryShown(rows: seq<Row>, domain: string, literal: string, rest: string, row: Row)
    requires row in rows && Listed(row, domain) && FoldedPrefix(literal, row.path)
    requires rest == row.path[|literal|..] && rest != "" && '/' !in rest
    ensures IsBelow(row, domain, literal) && Rest(row, literal) == rest
    ensures rest in NamesOf(Shown(rows, domain, literal))
       <==> FolderIn(Column(rows, domain, literal), rest) || literal + rest !in META_FILES
  {
    BelowIff(row, domain, literal);
    SlashAtNone(rest);
    RowIsCounted(rows, domain, literal, row);
    ColumnNames(rows, domain, literal, rest);
    ShownColumn(rows, domain, literal, rest);
    hide Column, Below, Named, AnyDeeper, Shown, FolderIn, NamesOf, FoldedPrefix, IsBelow, META_FILES;
  }

  // ---- Every folded way to the row shows it ----------------------------------------------------

  lemma MetaHasNoSlash(path: string)
    ensures path in META_FILES ==> path != "" && '/' !in path
  {
  }

  lemma CutAtSlash(rest: string)
    requires HasSlash(rest) && rest[|rest| - 1] != '/'
    ensures var tail := rest[SlashAt(rest) + 1..];
      && rest == NameOf(rest) + "/" + tail && tail != "" && tail[|tail| - 1] != '/' && '/' !in NameOf(rest)
      && Components(rest) == [NameOf(rest)] + Components(tail) && '/' in rest
  {
    assert rest[SlashAt(rest)] == '/';
  }

  lemma OneComponent(rest: string)
    requires '/' !in rest
    ensures Components(rest) == [rest]
  {
    SlashAtNone(rest);
  }

  lemma NoSlashLeft(rest: string)
    ensures !HasSlash(rest) ==> '/' !in rest
  {
  }

  /** From any prefix the row's path folds to, the rest of its path leads to it. */
  lemma {:induction false} TailShows(rows: seq<Row>, domain: string, literal: string, rest: string, row: Row)
    requires row in rows && Listed(row, domain) && FoldedPrefix(literal, row.path)
    requires rest == row.path[|literal|..] && rest != "" && rest[|rest| - 1] != '/'
    requires if literal == "" then row.path !in META_FILES else '/' in literal
    ensures Shows(rows, domain, literal, Components(rest), row)
    decreases |rest|
  {
    hide Shows, Shown, NamesOf, FolderIn, HasSlash, NameOf, SlashAt, Components, META_FILES, IsBelow, FoldedPrefix;
    if HasSlash(rest) {
      CutAtSlash(rest);
      var name, tail := NameOf(rest), rest[SlashAt(rest) + 1..];
      StepInto(literal, name, tail, row.path);
      FolderShown(rows, domain, literal, name, row);
      TailShows(rows, domain, literal + name + "/", tail, row);
      ShowsStep(rows, domain, literal, name, Components(tail), row);
    } else {
      NoSlashLeft(rest);
      OneComponent(rest);
      EntryShown(rows, domain, literal, rest, row);
      EndIsNotMeta(literal, rest, row.path);
      ShowsLast(rows, domain, literal, rest, row);
    }
  }

  lemma EndIsNotMeta(literal: string, rest: string, path: string)
    requires |literal| <= |path| && rest == path[|literal|..]
    requires if literal == "" then path !in META_FILES else '/' in literal
    ensures literal + rest !in META_FILES
  {
    MetaHasNoSlash(literal + rest);
    hide META_FILES;
    if literal == "" {
      assert literal + rest == path;
    } else {
      var i :| 0 <= i < |literal| && literal[i] == '/';
      assert (literal + rest)[i] == '/';
    }
  }

  lemma StepInto(literal: string, name: string, tail: string, path: string)
    requires FoldedPrefix(literal, path) && path[|literal|..] == name + "/" + tail
    ensures FoldedPrefix(literal + name + "/", path) && path[|literal + name + "/"|..] == tail
    ensures ExactPrefix(name + "/", path[|literal|..]) && '/' in literal + name + "/"
  {
    var rest := path[|literal|..];
    assert literal + name + "/" == literal + (name + "/");
    assert rest[..|name + "/"|] == name + "/" && rest[|name + "/"|..] == tail;
    FoldedSplit(literal, name + "/", path);
    ExactIsFolded(name + "/", rest);
    assert (literal + name + "/")[|literal + name|] == '/';
    hide FoldedPrefix;
  }

  // ---- Without a case variant there is no other way ----------------------------------------------

  lemma {:induction false} ShowsFolds(rows: seq<Row>, domain: string, literal: string, names: seq<string>, row: Row)
    requires Shows(rows, domain, literal, names, row)
    ensures FoldedPrefix(literal, row.path)
    decreases |names|
  {
    hide Shown, ListsEntry, ListsFolder, RowsOf, FoldedPrefix;
    if |names| == 1 {
      BelowIff(row, domain, literal);
    } else {
      ShowsFolds(rows, domain, literal + names[0] + "/", names[1..], row);
      assert literal + names[0] + "/" == literal + (names[0] + "/");
      FoldedSplit(literal, names[0] + "/", row.path);
    }
    hide IsBelow;
  }

  /** No listed path differs from a cut of this path at a slash, from `from` on, by ASCII case alone. */
  ghost predicate NoVariantAbove(rows: seq<Row>, domain: string, path: string, from: nat) {
    forall d :: from <= d < |path| && path[d] == '/' ==> CaseExact(rows, domain, path[..d + 1])
  }

  lemma ExactOf(rows: seq<Row>, domain: string, literal: string, r: Row)
    requires CaseExact(rows, domain, literal) && r in rows && Listed(r, domain) && FoldedPrefix(literal, r.path)
    ensures ExactPrefix(literal, r.path)
  {
  }

  /** A folder of the column leads on to the row up to case; if the cut of the row's path there is exact, so is the
      name. */
  lemma CutDecides(literal: string, name: string, rest: string, path: string, r: string)
    requires path == literal + rest && FoldedPrefix(literal + name + "/", path)
    requires FoldedPrefix(literal, r) && ExactPrefix(name + "/", r[|literal|..])
    ensures var d := |literal| + |name|;
      && d < |path| && path[d] == '/' && FoldedPrefix(path[..d + 1], r)
      && (ExactPrefix(path[..d + 1], r) ==> ExactPrefix(name + "/", rest))
  {
    assert literal + name + "/" == literal + (name + "/") && path[|literal|..] == rest;
    FoldedSplit(literal, name + "/", path);
    VariantCut(literal, name, rest, r);
    var d := |literal| + |name|;
    assert path[..d + 1] == literal + rest[..|name| + 1] && path[d] == rest[|name|];
    if ExactPrefix(path[..d + 1], r) {
      SameCut(literal, name, rest, r);
    }
    hide FoldedPrefix;
  }

  /** The first folder opened on the way to the row is the first of its own path. */
  lemma FirstIsOwn(rows: seq<Row>, domain: string, literal: string, rest: string, name: string, row: Row)
    requires row.path == literal + rest && FolderIn(Shown(rows, domain, literal), name)
    requires FoldedPrefix(literal + name + "/", row.path) && NoVariantAbove(rows, domain, row.path, |literal|)
    ensures HasSlash(rest) && NameOf(rest) == name
  {
    hide Shown, FolderIn, FoldedPrefix, CaseExact, ExactPrefix, HasSlash, NameOf;
    var r := FolderHasRow(rows, domain, literal, name);
    CutDecides(literal, name, rest, row.path, r.path);
    ExactOf(rows, domain, row.path[..|literal| + |name| + 1], r);
    NameIff(rest, name);
  }

  /** r begins, up to case, with literal and exactly with name after it; rest begins, up to case, with name. */
  lemma VariantCut(literal: string, name: string, rest: string, r: string)
    requires FoldedPrefix(literal, r) && ExactPrefix(name + "/", r[|literal|..]) && FoldedPrefix(name + "/", rest)
    ensures rest[|name|] == '/'
    ensures FoldedPrefix(literal + rest[..|name| + 1], r)
  {
    var cut := rest[..|name| + 1];
    assert rest[..|name + "/"|] == cut;
    FoldedPrefixAt(name + "/", rest);
    assert (name + "/")[|name|] == '/';
    FoldKeepsSlash(rest[|name|]);
    FoldKeepsSlash('/');
    FoldedPrefixAt(cut, r[|literal|..]);
    forall i | 0 <= i < |cut| ensures Fold(cut[i]) == Fold(r[|literal|..][i]) {
      assert r[|literal|..][i] == r[|literal|..][..|name + "/"|][i] == (name + "/")[i];
    }
    FoldedSplit(literal, cut, r);
    hide FoldedPrefix, Fold;
  }

  lemma SameCut(literal: string, name: string, rest: string, r: string)
    requires |name| < |rest| && ExactPrefix(literal + rest[..|name| + 1], r)
    requires |literal| <= |r| && ExactPrefix(name + "/", r[|literal|..])
    ensures ExactPrefix(name + "/", rest)
  {
    var cut := rest[..|name| + 1];
    PrefixOfPrefix(literal, cut, r);
    assert r[|literal|..][..|cut|] == cut && r[|literal|..][..|name + "/"|] == name + "/";
  }

  lemma {:induction false} OnlyOwnChain(rows: seq<Row>, domain: string, literal: string, rest: string,
                                        names: seq<string>, row: Row)
    requires row.path == literal + rest && rest != "" && rest[|rest| - 1] != '/'
    requires Shows(rows, domain, literal, names, row) && NoVariantAbove(rows, domain, row.path, |literal|)
    ensures names == Components(rest)
    decreases |names|
  {
    hide Shown, NamesOf, FolderIn, HasSlash, NameOf, SlashAt, Components, FoldedPrefix, CaseExact, ListsEntry,
      ListsFolder, RowsOf;
    NamesAre(Shown(rows, domain, literal), names[0]);
    if |names| == 1 {
      ShownColumn(rows, domain, literal, names[0]);
      assert row.path[|literal|..] == rest && names == [rest];
      OneComponent(rest);
    } else {
      ShowsFolds(rows, domain, literal + names[0] + "/", names[1..], row);
      FirstIsOwn(rows, domain, literal, rest, names[0], row);
      CutAtSlash(rest);
      var tail := rest[SlashAt(rest) + 1..];
      assert literal + rest == literal + names[0] + "/" + tail;
      OnlyOwnChain(rows, domain, literal + names[0] + "/", tail, names[1..], row);
      assert names == [names[0]] + names[1..];
    }
  }

  // ---- A case variant is another way -------------------------------------------------------------

  /** The folder names of a text that ends in a slash. */
  function Folders(lead: string): seq<string>
    decreases |lead|
  {
    if !HasSlash(lead) then [] else [NameOf(lead)] + Folders(lead[SlashAt(lead) + 1..])
  }

  function Join(names: seq<string>): string
    requires names != []
  {
    if |names| == 1 then names[0] else names[0] + "/" + Join(names[1..])
  }

  lemma {:induction false} JoinComponents(path: string)
    ensures Components(path) != [] && Join(Components(path)) == path
    decreases |path|
  {
    if HasSlash(path) {
      var tail := path[SlashAt(path) + 1..];
      JoinComponents(tail);
      assert Components(path)[1..] == Components(tail);
      assert path == NameOf(path) + "/" + tail;
    }
  }

  lemma JoinStep(name: string, names: seq<string>)
    requires names != []
    ensures Join([name] + names) == name + "/" + Join(names)
  {
    assert ([name] + names)[1..] == names;
  }

  lemma ConcatAssoc<T>(a: seq<T>, b: seq<T>, c: seq<T>)
    ensures a + b + c == a + (b + c)
  {
  }

  lemma NoFolders<T>(names: seq<T>)
    ensures Folders("") == [] && [] + names == names
  {
  }

  predicate EndsInSlash(lead: string) {
    lead == "" || lead[|lead| - 1] == '/'
  }

  lemma CutLead(lead: string)
    requires EndsInSlash(lead) && lead != ""
    ensures HasSlash(lead)
    ensures var tail := lead[SlashAt(lead) + 1..];
      && lead == NameOf(lead) + "/" + tail && EndsInSlash(tail) && '/' !in NameOf(lead)
      && Folders(lead) == [NameOf(lead)] + Folders(tail)
  {
    assert lead[|lead| - 1] in lead;
    assert lead[..|lead|] == lead;
    var tail := lead[SlashAt(lead) + 1..];
    assert tail != "" ==> tail[|tail| - 1] == lead[|lead| - 1];
  }

  lemma {:induction false} JoinFolders(lead: string, names: seq<string>)
    requires EndsInSlash(lead) && names != []
    ensures Join(Folders(lead) + names) == lead + Join(names)
    decreases |lead|
  {
    hide Folders, HasSlash, NameOf, SlashAt, Join;
    if lead == "" {
      NoFolders(names);
      NoFolders(Join(names));
    } else {
      CutLead(lead);
      var name, tail := NameOf(lead), lead[SlashAt(lead) + 1..];
      JoinFolders(tail, names);
      JoinStep(name, Folders(tail) + names);
      ConcatAssoc([name], Folders(tail), names);
      ConcatAssoc(name + "/", tail, Join(names));
    }
  }

  /** The folders a listed row lies in can be opened one after another. */
  lemma {:induction false} LeadShows(rows: seq<Row>, domain: string, literal: string, lead: string, r: Row,
                                     names: seq<string>, row: Row)
    requires r in rows && Listed(r, domain) && EndsInSlash(lead) && ExactPrefix(literal + lead, r.path)
    requires Shows(rows, domain, literal + lead, names, row)
    ensures Shows(rows, domain, literal, Folders(lead) + names, row)
    decreases |lead|
  {
    hide Shows, Shown, FolderIn, HasSlash, NameOf, SlashAt, Folders, Listed, FoldedPrefix, ExactPrefix, EndsInSlash;
    if lead == "" {
      NoFolders(names);
      assert literal + lead == literal;
    } else {
      CutLead(lead);
      var name, tail := NameOf(lead), lead[SlashAt(lead) + 1..];
      LeadIsFolder(literal, name, tail, lead, r.path);
      LeadShows(rows, domain, literal + name + "/", tail, r, names, row);
      FolderShown(rows, domain, literal, name, r);
      ShowsStep(rows, domain, literal, name, Folders(tail) + names, row);
      ConcatAssoc([name], Folders(tail), names);
    }
  }

  lemma LeadIsFolder(literal: string, name: string, tail: string, lead: string, path: string)
    requires lead == name + "/" + tail && ExactPrefix(literal + lead, path)
    ensures literal + lead == literal + name + "/" + tail
    ensures FoldedPrefix(literal, path) && ExactPrefix(name + "/", path[|literal|..])
  {
    PrefixOfPrefix(literal, lead, path);
    PrefixOfPrefix(name + "/", tail, path[|literal|..]);
    ExactIsFolded(literal, path);
    hide FoldedPrefix;
  }

  /** A listed row in a folder that differs by ASCII case alone from one above the file makes a second chain to it. */
  lemma VariantShows(rows: seq<Row>, row: Row, d: nat, r: Row) returns (names: seq<string>)
    requires row in rows && row.flags == FILE_FLAG && Normal(row.path) && d < |row.path| && row.path[d] == '/'
    requires r in rows && Listed(r, row.domain)
    requires FoldedPrefix(row.path[..d + 1], r.path) && !ExactPrefix(row.path[..d + 1], r.path)
    ensures Shows(rows, row.domain, "", names, row) && names != Components(row.path)
  {
    hide FoldedPrefix, Shows, Components, Folders, Join;
    var lead, tail := VariantParts(row.path, r.path, d);
    hide Normal, ExactPrefix, EndsInSlash;
    TailShows(rows, row.domain, lead, tail, row);
    NoFolders(lead);
    LeadShows(rows, row.domain, "", lead, r, Components(tail), row);
    names := Folders(lead) + Components(tail);
    OtherJoin(row.path, lead, tail);
  }

  lemma TailOfNormal(path: string, d: nat)
    requires Normal(path) && d < |path| && path[d] == '/'
    ensures path[d + 1..] != "" && path[d + 1..][|path| - d - 2] != '/'
  {
    assert path[|path| - 1] != '/';
  }

  lemma VariantLead(path: string, r: string, d: nat)
    requires d < |path| && path[d] == '/' && FoldedPrefix(path[..d + 1], r) && !ExactPrefix(path[..d + 1], r)
    ensures d < |r| && r[d] == '/' && FoldedPrefix(r[..d + 1], path) && r[..d + 1] != path[..d + 1]
  {
    FoldedPrefixAt(path[..d + 1], r);
    FoldedTurns(path, r, d + 1);
    hide FoldedPrefix, Fold;
  }

  lemma LeadText(r: string, d: nat)
    requires d < |r| && r[d] == '/'
    ensures '/' in r[..d + 1] && EndsInSlash(r[..d + 1]) && ExactPrefix("" + r[..d + 1], r)
  {
    assert r[..d + 1][d] == '/' && "" + r[..d + 1] == r[..d + 1];
  }

  lemma VariantParts(path: string, r: string, d: nat) returns (lead: string, tail: string)
    requires Normal(path) && d < |path| && path[d] == '/'
    requires FoldedPrefix(path[..d + 1], r) && !ExactPrefix(path[..d + 1], r)
    ensures |lead| == d + 1 && lead != path[..d + 1] && '/' in lead && EndsInSlash(lead)
    ensures FoldedPrefix(lead, path) && ExactPrefix("" + lead, r)
    ensures tail == path[|lead|..] && tail != "" && tail[|tail| - 1] != '/'
  {
    hide *;
    VariantLead(path, r, d);
    LeadText(r, d);
    TailOfNormal(path, d);
    lead, tail := r[..d + 1], path[d + 1..];
  }

  lemma OtherJoin(path: string, lead: string, tail: string)
    requires |lead| <= |path| && lead != path[..|lead|] && EndsInSlash(lead)
    ensures Folders(lead) + Components(tail) != Components(path)
  {
    JoinComponents(tail);
    JoinFolders(lead, Components(tail));
    JoinComponents(path);
    assert (lead + tail)[..|lead|] == lead;
    hide Folders, Components, Join;
  }

  // ---- The theorem -------------------------------------------------------------------------------

  /** A regular file's own chain, its path cut at the slashes, always shows it on the pages; only a bookkeeping file
      is left out, unless some row lies below its name. */
  lemma OwnChainShows(rows: seq<Row>, row: Row)
    requires row in rows && row.flags == FILE_FLAG && Normal(row.path) && row.path != ""
    ensures Shows(rows, row.domain, "", Components(row.path), row)
       <==> || row.path !in META_FILES
            || exists i :: 0 <= i < |rows| && LiesDeeper(rows[i], row.domain, "", row.path)
  {
    assert row.path[|""|..] == row.path && "" + row.path == row.path;
    FoldedPrefixAt("", row.path);
    LastIsNoSlash(row.path);
    hide Fold, NameOf, HasSlash, SlashAt, Rest, Shows, Shown, Column, NamesOf, FolderIn, META_FILES, Components,
      FoldedPrefix, IsBelow, Normal, LiesDeeper;
    if row.path in META_FILES {
      MetaShows(rows, row);
    } else {
      TailShows(rows, row.domain, "", row.path, row);
    }
  }

  lemma MetaShows(rows: seq<Row>, row: Row)
    requires row in rows && row.flags == FILE_FLAG && row.path in META_FILES && FoldedPrefix("", row.path)
    ensures Shows(rows, row.domain, "", Components(row.path), row)
       <==> exists i :: 0 <= i < |rows| && LiesDeeper(rows[i], row.domain, "", row.path)
  {
    hide Fold, NameOf, HasSlash, SlashAt, Rest, Shows, Shown, Column, NamesOf, FolderIn, META_FILES, Components,
      FoldedPrefix, IsBelow, LiesDeeper, Below, AnyDeeper, Named, LeastId, Members;
    assert row.path[|""|..] == row.path && "" + row.path == row.path;
    MetaHasNoSlash(row.path);
    OneComponent(row.path);
    EntryShown(rows, row.domain, "", row.path, row);
    ShowsLast(rows, row.domain, "", row.path, row);
    ColumnNames(rows, row.domain, "", row.path);
    GroupIs(rows, row.domain, "", row.path);
  }

  /** No other chain shows the file exactly when no listed path differs by ASCII case alone from a folder above it. */
  lemma OneChainIff(rows: seq<Row>, row: Row)
    requires row in rows && row.flags == FILE_FLAG && Normal(row.path) && row.path != ""
    ensures (forall names :: Shows(rows, row.domain, "", names, row) ==> names == Components(row.path))
       <==> NoVariantAbove(rows, row.domain, row.path, 0)
  {
    hide Shows, Components, CaseExact, Normal;
    if NoVariantAbove(rows, row.domain, row.path, 0) {
      forall names | Shows(rows, row.domain, "", names, row) ensures names == Components(row.path) {
        assert "" + row.path == row.path;
        LastIsNoSlash(row.path);
        OnlyOwnChain(rows, row.domain, "", row.path, names, row);
      }
    } else {
      var d :| 0 <= d < |row.path| && row.path[d] == '/' && !CaseExact(rows, row.domain, row.path[..d + 1]);
      var r := VariantRow(rows, row.domain, row.path[..d + 1]);
      var names := VariantShows(rows, row, d, r);
    }
  }

  lemma LastIsNoSlash(path: string)
    requires Normal(path) && path != ""
    ensures path[|path| - 1] != '/'
  {
  }

  lemma VariantRow(rows: seq<Row>, domain: string, literal: string) returns (r: Row)
    requires !CaseExact(rows, domain, literal)
    ensures r in rows && Listed(r, domain) && FoldedPrefix(literal, r.path) && !ExactPrefix(literal, r.path)
  {
    var i :| 0 <= i < |rows| && Listed(rows[i], domain) && FoldedPrefix(literal, rows[i].path)
             && !ExactPrefix(literal, rows[i].path);
    r := rows[i];
  }

  /** The pages show a regular file by exactly one chain of columns, its path cut at the slashes, exactly when no
      listed path differs by ASCII case alone from a folder above it. */
  lemma EveryFileHasOneChainIff(rows: seq<Row>, row: Row)
    requires row in rows && row.flags == FILE_FLAG && Normal(row.path) && row.path != "" && row.path !in META_FILES
    ensures (forall names :: Shows(rows, row.domain, "", names, row) <==> names == Components(row.path))
       <==> NoVariantAbove(rows, row.domain, row.path, 0)
  {
    OwnChainShows(rows, row);
    OneChainIff(rows, row);
    hide Shows, Components, NoVariantAbove, Normal, META_FILES;
  }

  /** Two rows are enough for two chains: the pages list the second file under foo and under Foo. */
  lemma TwoChains()
    ensures Shows(LEAK, "d", "", ["foo", "b"], LEAK[1])
    ensures Shows(LEAK, "d", "", ["Foo", "b"], LEAK[1])
  {
    ChainOfTwo(LEAK[1], "foo");
    ChainOfTwo(LEAK[0], "Foo");
  }

  lemma ChainOfTwo(r: Row, folder: string)
    requires (r == LEAK[0] && folder == "Foo") || (r == LEAK[1] && folder == "foo")
    ensures Shows(LEAK, "d", "", [folder, "b"], LEAK[1])
  {
    hide Shown, FolderIn, IsBelow, Components, META_FILES, Shows;
    LeakFolder(r, folder);
    FolderShown(LEAK, "d", "", folder, r);
    OneComponent("b");
    TailShows(LEAK, "d", "" + folder + "/", "b", LEAK[1]);
    ShowsStep(LEAK, "d", "", folder, ["b"], LEAK[1]);
    assert [folder] + ["b"] == [folder, "b"];
  }

  lemma LeakFolder(r: Row, folder: string)
    requires (r == LEAK[0] && folder == "Foo") || (r == LEAK[1] && folder == "foo")
    ensures r in LEAK && LEAK[1] in LEAK && '/' !in folder
    ensures FoldedPrefix("", r.path) && ExactPrefix(folder + "/", r.path[|""|..])
    ensures var literal := "" + folder + "/";
      '/' in literal && FoldedPrefix(literal, LEAK[1].path) && LEAK[1].path[|literal|..] == "b"
  {
    var literal := "" + folder + "/";
    assert r.path[0..] == r.path && r.path[..4] == folder + "/" && literal[3] == '/';
    assert LEAK[1].path[4..] == "b";
  }
}
