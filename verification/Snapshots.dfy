/**
 Generations on a file system with hard links. A directory tree maps a path to an inode, and only
 the inode holds content, so a file written in place changes in every tree that links its inode.
 */
module Snapshots {
  import opened Wrappers
  import opened Retention
  import opened RetentionLaws

  type Path = string
  type Inode = nat
  type Content = seq<bv8>
  type Tree = map<Path, Inode>

  /** One device's corner of the disk. Generations and partial copies are named by their second. */
  datatype Disk = Disk(live: Tree, gens: map<int, Tree>, partials: map<int, Tree>, pins: set<int>,
                       data: map<Inode, Content>)

  datatype Error = RsyncMissing | RsyncFailed(exit: int) | TargetExists | NoSuchSnapshot | RemovalStopped

  /** How the rsync process ended, and what it left in the partial directory. `bare` matters only if a directory
      without files already stands under the final name: whether it holds no inner directory either, so that the
      rename replaces it. */
  datatype Rsync = NotInstalled | Exited(code: int) | Copied(tree: Tree, data: map<Inode, Content>, bare: bool)

  function Contents(tree: Tree, data: map<Inode, Content>): map<Path, Content> {
    map p | p in tree && tree[p] in data :: data[tree[p]]
  }

  /** What rsync -a --delete --link-dest promises: the live content, each file a fresh inode or a link to the
      base's. */
  ghost predicate RsyncHonest(d: Disk, base: Option<Tree>, r: Rsync) {
    r.Copied? ==>
      && r.tree.Keys == d.live.Keys
      && (forall i :: i in d.data ==> i in r.data && r.data[i] == d.data[i])
      && (forall p :: p in r.tree ==>
           && r.tree[p] in r.data && d.live[p] in d.data && r.data[r.tree[p]] == d.data[d.live[p]]
           && (r.tree[p] !in d.data || (base.Some? && p in base.value && r.tree[p] == base.value[p])))
  }

  /** The newest generation, the only one a new copy may link against. */
  function LinkBase(d: Disk, hardlinks: bool): Option<Tree> {
    if hardlinks && d.gens != map[] then
      var t := Max(d.gens.Keys);
      Some(d.gens[t])
    else None
  }

  function Max(S: set<int>): (m: int)
    requires S != {}
    ensures IsNewest(S, m)
  {
    NewestExists(S);
    var m :| m in S && IsNewest(S, m);
    m
  }

  lemma NewestExists(S: set<int>)
    requires S != {}
    ensures exists m :: m in S && IsNewest(S, m)
    ensures forall m, n :: IsNewest(S, m) && IsNewest(S, n) ==> m == n
  {
    var m := NewestIn(S);
    forall m, n | IsNewest(S, m) && IsNewest(S, n) ensures m == n {
      OneNewest(S, m, n);
    }
  }

  // ---- What each operation does to the disk ------------------------------------------------

  /** open(path, "wb"): an existing file keeps its inode; a new file gets one nobody uses. */
  function WriteLive(d: Disk, p: Path, c: Content, unused: Inode): Disk {
    if p in d.live then d.(data := d.data[d.live[p] := c])
    else d.(live := d.live[p := unused], data := d.data[unused := c])
  }

  function DeleteLive(d: Disk, p: Path): Disk {
    d.(live := d.live - {p})
  }

  function TakeSpec(d: Disk, now: int, r: Rsync): (Disk, Result<int, Error>) {
    var clean := d.(partials := d.partials - {now});
    match r
    case NotInstalled => (clean, Err(RsyncMissing))
    case Exited(code) => (clean, Err(RsyncFailed(code)))
    case Copied(tree, data, bare) =>
      if now in d.gens && (d.gens[now] != map[] || !bare) then
        (clean.(partials := clean.partials[now := tree], data := data), Err(TargetExists))
      else
        (clean.(gens := d.gens[now := tree], data := data), Ok(now))
  }

  /** The process dies while rsync runs: whatever was copied so far stays in the partial directory. */
  function CrashInTake(d: Disk, now: int, tree: Tree, data: map<Inode, Content>): Disk {
    d.(partials := d.partials[now := tree], data := data)
  }

  /** What apply_retention leaves when it runs to its end. */
  function PruneSpec(d: Disk, p: Policy, off: int): Disk {
    var kept := Survivors(d.gens.Keys, d.pins, p, off);
    d.(gens := map t | t in d.gens && t in kept :: d.gens[t], pins := d.pins * kept)
  }

  function PinSpec(d: Disk, t: int, pinned: bool): (Disk, Result<(), Error>) {
    if t !in d.gens then (d, Err(NoSuchSnapshot))
    else (d.(pins := if pinned then d.pins + {t} else d.pins - {t}), Ok(()))
  }

  // ---- Removal, file by file -----------------------------------------------------------------

  /** The files of each generation in the order in which its removal meets them. */
  type Listing = map<int, seq<Path>>

  predicate NoDuplicates<T(==)>(xs: seq<T>) {
    forall i, j :: 0 <= i < j < |xs| ==> xs[i] != xs[j]
  }

  predicate ListsAll(order: Listing, d: Disk) {
    forall t :: t in d.gens ==> t in order && NoDuplicates(order[t]) && Elements(order[t]) == d.gens[t].Keys
  }

  function FilesOf(order: Listing, t: int): seq<Path> {
    if t in order then order[t] else []
  }

  /** A tree after the first n files of its listing were unlinked. */
  function Without(tree: Tree, files: seq<Path>, n: nat): Tree
    requires n <= |files|
  {
    tree - Elements(files[..n])
  }

  /** A removal that stopped after n files: the directory is still there, and still counts as a generation. */
  function CutShort(d: Disk, t: int, files: seq<Path>, n: nat): Disk
    requires n <= |files|
  {
    if t in d.gens then d.(gens := d.gens[t := Without(d.gens[t], files, n)]) else d
  }

  lemma CutNothing(d: Disk, t: int, files: seq<Path>)
    ensures CutShort(d, t, files, 0) == d
  {
    if t in d.gens {
      assert Without(d.gens[t], files, 0) == d.gens[t];
    }
  }

  lemma CutOneMore(d: Disk, t: int, files: seq<Path>, n: nat)
    requires n < |files| && t in d.gens
    ensures var c := CutShort(d, t, files, n);
      CutShort(d, t, files, n + 1) == c.(gens := c.gens[t := c.gens[t] - {files[n]}])
  {
    assert Elements(files[..n + 1]) == Elements(files[..n]) + {files[n]};
    assert Without(d.gens[t], files, n + 1) == Without(d.gens[t], files, n) - {files[n]};
  }

  function Dropped(d: Disk, t: int): Disk {
    d.(gens := d.gens - {t}, pins := d.pins - {t})
  }

  /**
   Removing generations one after another, each file by file and then its directory. `calls` is how many of these calls
   succeed before one fails or the process dies; the flag says whether the removal came to its end.
   */
  function RemoveAll(d: Disk, doomed: seq<int>, order: Listing, calls: nat): (Disk, bool)
    decreases |doomed|
  {
    if doomed == [] then (d, true)
    else
      var t, files := doomed[0], FilesOf(order, doomed[0]);
      if t !in d.gens then (d, false)
      else if calls <= |files| then (CutShort(d, t, files, calls), false)
      else RemoveAll(Dropped(d, t), doomed[1..], order, calls - |files| - 1)
  }

  lemma OthersAreOlder(S: set<int>, m: int)
    requires IsNewest(S, m)
    ensures forall u :: u in S - {m} ==> u < m
    ensures forall ts: seq<int> :: Elements(ts) == S - {m} ==>
      Elements([m] + ts) == S && forall i :: 0 <= i < |ts| ==> ts[i] < m
  {
    assert forall u :: u in S && m < u ==> u in Newer(S, m);
    forall ts: seq<int> | Elements(ts) == S - {m}
      ensures Elements([m] + ts) == S && forall i :: 0 <= i < |ts| ==> ts[i] < m
    {
      assert Elements([m] + ts) == {m} + Elements(ts);
      assert forall i :: 0 <= i < |ts| ==> ts[i] in Elements(ts);
    }
  }

  lemma RemoveFirst(d: Disk, t: int, rest: seq<int>, order: Listing, calls: nat)
    requires t in d.gens
    ensures var files := FilesOf(order, t);
      RemoveAll(d, [t] + rest, order, calls)
      == if calls <= |files| then (CutShort(d, t, files, calls), false)
        else RemoveAll(Dropped(d, t), rest, order, calls - |files| - 1)
  {
    assert ([t] + rest)[1..] == rest;
  }

  predicate StrictlyDown(ts: seq<int>) {
    forall i, j :: 0 <= i < j < |ts| ==> ts[j] < ts[i]
  }

  /** A set of instants, newest first. */
  function Descending(S: set<int>): (ts: seq<int>)
    ensures Elements(ts) == S && StrictlyDown(ts)
    decreases |S|
  {
    if S == {} then []
    else
      var m := Max(S);
      OthersAreOlder(S, m);
      [m] + Descending(S - {m})
  }

  function Doomed(d: Disk, p: Policy, off: int): set<int> {
    d.gens.Keys - Survivors(d.gens.Keys, d.pins, p, off)
  }

  /** apply_retention, stopped after `calls` successful removals of a file or a directory. */
  function PruneUntil(d: Disk, p: Policy, off: int, order: Listing, calls: nat): (Disk, bool) {
    RemoveAll(d, Descending(Doomed(d, p, off)), order, calls)
  }

  /** Without hard links every generation is a full copy, so only the latest is kept. */
  function EffectivePolicy(hardlinks: bool, p: Policy): Policy {
    if hardlinks then p else Policy(1, 0, 0, 0, 0)
  }

  /** A copy links against the newest generation, or against nothing: without hard links, or as the first one. */
  lemma LinkBaseIs(d: Disk, hardlinks: bool)
    ensures LinkBase(d, hardlinks).None? <==> !hardlinks || d.gens == map[]
    ensures LinkBase(d, hardlinks).Some? ==>
      exists t :: t in d.gens && (forall u :: u in d.gens ==> u <= t) && LinkBase(d, hardlinks).value == d.gens[t]
  {
    if hardlinks && d.gens != map[] {
      var t := Max(d.gens.Keys);
      assert forall u :: u in d.gens.Keys && t < u ==> u in Newer(d.gens.Keys, t);
      assert t in d.gens && LinkBase(d, hardlinks).value == d.gens[t];
    }
  }

  // ---- The store ---------------------------------------------------------------------------

  class Store {
    var live: Tree
    var gens: map<int, Tree>
    var partials: map<int, Tree>
    var pins: set<int>
    var data: map<Inode, Content>

    function View(): Disk
      reads this
    {
      Disk(live, gens, partials, pins, data)
    }

    constructor (live: Tree, data: map<Inode, Content>)
      ensures View() == Disk(live, map[], map[], {}, data)
    {
      this.live, this.gens, this.partials, this.pins, this.data := live, map[], map[], {}, data;
    }

    /** Every generation, newest first; partial directories and pin markers are not generations. */
    method ListSnapshots() returns (snaps: seq<Snapshot>)
      ensures NewestFirst(snaps) && Times(snaps) == gens.Keys && PinnedTimes(snaps) == pins * gens.Keys
    {
      snaps := [];
      NoTimes();
      hide Times, PinnedTimes;
      var left := gens.Keys;
      while left != {}
        invariant left <= gens.Keys && NewestFirst(snaps)
        invariant Times(snaps) == gens.Keys - left && PinnedTimes(snaps) == pins * (gens.Keys - left)
        invariant forall s, t :: s in snaps && t in left ==> t < s.takenAt
        decreases left
      {
        var t := Max(left);
        ghost var before := snaps;
        snaps := snaps + [Snapshot(t, t in pins)];
        AppendedTimes(before, Snapshot(t, t in pins));
        assert forall u :: u in left && u != t ==> u < t by {
          assert forall u :: u in left && t < u ==> u in Newer(left, t);
        }
        left := left - {t};
      }
    }

    method Take(now: int, hardlinks: bool, r: Rsync) returns (taken: Result<int, Error>)
      requires RsyncHonest(View(), LinkBase(View(), hardlinks), r)
      modifies this
      ensures (View(), taken) == TakeSpec(old(View()), now, r)
      ensures live == old(live) && pins == old(pins)
      ensures r.NotInstalled? ==> taken == Err(RsyncMissing)
      ensures r.Exited? ==> taken == Err(RsyncFailed(r.code))
      ensures !r.Copied? ==> gens == old(gens) && data == old(data) && partials == old(partials) - {now}
      ensures r.Copied? ==> data == r.data
      ensures r.Copied? ==>
        taken == if now !in old(gens) || (old(gens)[now] == map[] && r.bare) then Ok(now) else Err(TargetExists)
      ensures taken.Ok? ==> gens == old(gens)[now := r.tree] && partials == old(partials) - {now}
      ensures r.Copied? && taken.Err? ==> gens == old(gens) && partials == old(partials)[now := r.tree]
    {
      if now in partials {
        partials := partials - {now};
      } else {
        assert partials - {now} == partials;
      }
      match r
      case NotInstalled =>
        taken := Err(RsyncMissing);
      case Exited(code) =>
        taken := Err(RsyncFailed(code));
      case Copied(tree, copied, bare) =>
        data := copied;
        if now in gens && (gens[now] != map[] || !bare) {
          partials := partials[now := tree];
          taken := Err(TargetExists);
        } else {
          gens := gens[now := tree];
          taken := Ok(now);
        }
    }

    method Pin(t: int, pinned: bool) returns (done: Result<(), Error>)
      modifies this
      ensures (View(), done) == PinSpec(old(View()), t, pinned)
      ensures done == if t in gens then Ok(()) else Err(NoSuchSnapshot)
      ensures live == old(live) && gens == old(gens) && partials == old(partials) && data == old(data)
      ensures done.Ok? ==> (t in pins <==> pinned) && forall u :: u != t ==> (u in pins <==> u in old(pins))
      ensures done.Err? ==> pins == old(pins)
    {
      if t !in gens {
        return Err(NoSuchSnapshot);
      }
      pins := if pinned then pins + {t} else pins - {t};
      done := Ok(());
    }

    /** rmtree of one generation; None when it stopped on the way, else what is left of the allowance. */
    method RemoveTree(t: int, files: seq<Path>, calls: nat) returns (left: Option<nat>)
      requires t in gens
      modifies this
      ensures calls <= |files| ==> left == None && View() == CutShort(old(View()), t, files, calls)
      ensures |files| < calls ==> left == Some(calls - |files| - 1) && View() == old(View()).(gens := old(gens) - {t})
    {
      var i := 0;
      CutNothing(View(), t, files);
      while i < |files| && i < calls
        invariant 0 <= i <= |files| && i <= calls && t in gens
        invariant View() == CutShort(old(View()), t, files, i)
      {
        CutOneMore(old(View()), t, files, i);
        gens := gens[t := gens[t] - {files[i]}];
        i := i + 1;
      }
      if i == calls {
        return None;
      }
      gens := gens - {t};
      left := Some(calls - i - 1);
    }

    /** Removes every generation the plan gives no label and reports them newest first, or stops on the way. */
    method ApplyRetention(p: Policy, off: int, order: Listing, calls: nat) returns (removed: Result<seq<int>, Error>)
      requires pins <= gens.Keys
      modifies this
      ensures (View(), removed.Ok?) == PruneUntil(old(View()), p, off, order, calls)
      ensures removed == if removed.Ok? then Ok(Descending(Doomed(old(View()), p, off))) else Err(RemovalStopped)
    {
      hide Survivors, ReasonsOf, Times, PinnedTimes, Descending, CutShort, RemoveAll, FilesOf, Unkept, WalkKeeps;
      ghost var S, P, kept, before := gens.Keys, pins, Survivors(gens.Keys, pins, p, off), View();
      var snaps := ListSnapshots();
      assert P * S == P;
      var plan := PlanRetention(snaps, p, off);
      UnkeptIsDescending(snaps, kept);
      SnapshotsAreListed(snaps);
      var out: seq<int> := [];
      var allowance := calls;
      var i := 0;
      while i < |plan|
        invariant 0 <= i <= |plan|
        invariant out + Unkept(snaps[i..], kept) == Descending(S - kept)
        invariant RemoveAll(View(), Unkept(snaps[i..], kept), order, allowance)
               == RemoveAll(before, Descending(S - kept), order, calls)
        invariant forall j :: i <= j < |snaps| ==> snaps[j].takenAt in gens
      {
        var (snap, reasons) := plan[i];
        SurvivorIff(S, P, p, off, snap.takenAt);
        UnkeptStep(snaps, i, kept);
        if reasons == [] {
          ghost var here, rest := View(), Unkept(snaps[i + 1..], kept);
          RemoveFirst(here, snap.takenAt, rest, order, allowance);
          assert out + ([snap.takenAt] + rest) == out + [snap.takenAt] + rest;
          var left := RemoveTree(snap.takenAt, FilesOf(order, snap.takenAt), allowance);
          if left.None? {
            return Err(RemovalStopped);
          }
          allowance := left.value;
          pins := pins - {snap.takenAt};
          assert View() == Dropped(here, snap.takenAt);
          out := out + [snap.takenAt];
        }
        i := i + 1;
      }
      NothingLeft(View(), snaps[i..], kept, order, allowance);
      assert out + [] == out;
      removed := Ok(out);
    }

    /** Total bytes below the given directories, counting each inode once; a file that cannot be read counts
        nothing. */
    method DiskUsage(listings: seq<seq<Inode>>) returns (total: nat)
      ensures total == SumSizes(Listed(listings) * data.Keys, data)
    {
      var seen: set<Inode> := {};
      total := 0;
      NothingListed(listings);
      hide Elements, Listed;
      var i := 0;
      while i < |listings|
        invariant 0 <= i <= |listings|
        invariant seen == Listed(listings[..i]) * data.Keys && total == SumSizes(seen, data)
      {
        var j := 0;
        while j < |listings[i]|
          invariant 0 <= j <= |listings[i]|
          invariant seen == (Listed(listings[..i]) + Elements(listings[i][..j])) * data.Keys
          invariant total == SumSizes(seen, data)
        {
          var inode := listings[i][j];
          OneMoreElement(listings[i], j);
          if inode in data && inode !in seen {
            SumOfAdded(seen, inode, data);
            seen := seen + {inode};
            total := total + |data[inode]|;
          }
          j := j + 1;
        }
        assert listings[i][..j] == listings[i];
        OneMoreListing(listings, i);
        i := i + 1;
      }
      assert listings[..i] == listings;
    }
  }

  /** The generations of a list a set does not keep, in order. */
  function Unkept(snaps: seq<Snapshot>, kept: set<int>): seq<int> {
    if snaps == [] then []
    else (if snaps[0].takenAt in kept then [] else [snaps[0].takenAt]) + Unkept(snaps[1..], kept)
  }

  lemma SnapshotsAreListed(snaps: seq<Snapshot>)
    ensures forall j :: 0 <= j < |snaps| ==> snaps[j].takenAt in Times(snaps)
  {
  }

  lemma UnkeptStep(snaps: seq<Snapshot>, i: nat, kept: set<int>)
    requires i < |snaps|
    ensures Unkept(snaps[i..], kept)
         == (if snaps[i].takenAt in kept then [] else [snaps[i].takenAt]) + Unkept(snaps[i + 1..], kept)
    ensures snaps[i].takenAt in kept ==> Unkept(snaps[i..], kept) == Unkept(snaps[i + 1..], kept)
  {
    assert snaps[i..][1..] == snaps[i + 1..];
  }

  lemma NothingLeft(d: Disk, snaps: seq<Snapshot>, kept: set<int>, order: Listing, calls: nat)
    requires snaps == []
    ensures Unkept(snaps, kept) == [] && RemoveAll(d, Unkept(snaps, kept), order, calls) == (d, true)
  {
  }

  lemma HeadAndOlder(snaps: seq<Snapshot>)
    requires NewestFirst(snaps) && snaps != []
    ensures Times(snaps) == {snaps[0].takenAt} + Times(snaps[1..])
    ensures forall t :: t in Times(snaps[1..]) ==> t < snaps[0].takenAt
  {
    assert forall s :: s in snaps <==> s == snaps[0] || s in snaps[1..];
    assert forall s :: s in snaps[1..] ==> s.takenAt in Times(snaps[1..]);
  }

  lemma PrependFacts(t: int, rest: seq<int>)
    requires StrictlyDown(rest) && forall u :: u in Elements(rest) ==> u < t
    ensures StrictlyDown([t] + rest) && Elements([t] + rest) == {t} + Elements(rest)
  {
    assert forall i :: 0 <= i < |rest| ==> rest[i] in Elements(rest);
  }

  lemma UnkeptHead(snaps: seq<Snapshot>, kept: set<int>)
    requires snaps != []
    ensures Unkept(snaps, kept)
         == if snaps[0].takenAt in kept then Unkept(snaps[1..], kept) else [snaps[0].takenAt] + Unkept(snaps[1..], kept)
  {
  }

  lemma {:induction false} UnkeptFacts(snaps: seq<Snapshot>, kept: set<int>)
    requires NewestFirst(snaps)
    ensures Elements(Unkept(snaps, kept)) == Times(snaps) - kept && StrictlyDown(Unkept(snaps, kept))
  {
    if snaps == [] {
    } else {
      UnkeptHead(snaps, kept);
      UnkeptFacts(snaps[1..], kept);
      HeadAndOlder(snaps);
      hide Times, Elements, NewestFirst, StrictlyDown, Unkept;
      if snaps[0].takenAt !in kept {
        PrependFacts(snaps[0].takenAt, Unkept(snaps[1..], kept));
      }
    }
  }

  lemma HeadIsElement<T>(xs: seq<T>)
    ensures xs == [] || xs[0] in Elements(xs)
  {
  }

  /** There is one way to list a set newest first. */
  lemma {:induction false} DescendingIsUnique(a: seq<int>, b: seq<int>)
    requires Elements(a) == Elements(b) && StrictlyDown(a) && StrictlyDown(b)
    ensures a == b
  {
    if a == [] {
      HeadIsElement(b);
    } else {
      assert a[0] in Elements(a) && a[0] in b;
      assert b[0] in Elements(b) && b[0] in a;
      assert a[0] == b[0];
      assert Elements(a[1..]) == Elements(a) - {a[0]} && Elements(b[1..]) == Elements(b) - {b[0]};
      DescendingIsUnique(a[1..], b[1..]);
    }
  }

  lemma UnkeptIsDescending(snaps: seq<Snapshot>, kept: set<int>)
    requires NewestFirst(snaps)
    ensures Unkept(snaps, kept) == Descending(Times(snaps) - kept)
  {
    UnkeptFacts(snaps, kept);
    DescendingIsUnique(Unkept(snaps, kept), Descending(Times(snaps) - kept));
  }

  lemma NoTimes()
    ensures Times([]) == {} && PinnedTimes([]) == {}
  {
  }

  lemma AppendedTimes(snaps: seq<Snapshot>, s: Snapshot)
    ensures Times(snaps + [s]) == Times(snaps) + {s.takenAt}
    ensures PinnedTimes(snaps + [s]) == PinnedTimes(snaps) + if s.pinned then {s.takenAt} else {}
  {
    assert forall x :: x in snaps + [s] <==> x in snaps || x == s;
    assert forall x :: x in snaps ==> x.takenAt in Times(snaps);
    assert s in snaps + [s];
  }

  lemma SurvivorsSubset(S: set<int>, P: set<int>, p: Policy, off: int)
    ensures Survivors(S, P, p, off) <= S
  {
  }

  lemma SurvivorIff(S: set<int>, P: set<int>, p: Policy, off: int, t: int)
    ensures t in Survivors(S, P, p, off) <==> t in S && ReasonsOf(S, P, t, p, off) != []
  {
    hide ReasonsOf;
  }

  // ---- Disk usage --------------------------------------------------------------------------

  function Listed(listings: seq<seq<Inode>>): set<Inode> {
    set xs, x | xs in listings && x in xs :: x
  }

  lemma NothingListed(listings: seq<seq<Inode>>)
    ensures Listed(listings[..0]) == {} && forall xs: seq<Inode> :: Elements(xs[..0]) == {}
  {
  }

  lemma OneMoreElement<T>(xs: seq<T>, j: nat)
    requires j < |xs|
    ensures Elements(xs[..j + 1]) == Elements(xs[..j]) + {xs[j]}
  {
    assert xs[..j + 1] == xs[..j] + [xs[j]];
  }

  lemma OneMoreListing(listings: seq<seq<Inode>>, i: nat)
    requires i < |listings|
    ensures Listed(listings[..i + 1]) == Listed(listings[..i]) + Elements(listings[i])
  {
    assert listings[..i + 1] == listings[..i] + [listings[i]];
    assert listings[i] in listings[..i + 1];
    assert forall xs :: xs in listings[..i] ==> xs in listings[..i + 1];
  }

  predicate IsLeast(S: set<Inode>, i: Inode) {
    i in S && forall j :: j in S ==> i <= j
  }

  lemma LeastExists(S: set<Inode>)
    requires S != {}
    ensures exists i :: IsLeast(S, i)
    decreases |S|
  {
    assert (forall u :: u !in S) ==> S == {};
    var i :| i in S;
    assert forall u :: u in S ==> u == i || u in S - {i};
    if S - {i} != {} {
      LeastExists(S - {i});
      var j :| IsLeast(S - {i}, j);
      assert IsLeast(S, if j < i then j else i);
    } else {
      assert IsLeast(S, i);
    }
  }

  function SumSizes(S: set<Inode>, data: map<Inode, Content>): nat
    requires S <= data.Keys
    decreases |S|
  {
    if S == {} then 0
    else
      LeastExists(S);
      var i :| IsLeast(S, i);
      |data[i]| + SumSizes(S - {i}, data)
  }

  lemma {:induction false} SumOfAdded(S: set<Inode>, x: Inode, data: map<Inode, Content>)
    requires S <= data.Keys && x in data && x !in S
    ensures SumSizes(S + {x}, data) == SumSizes(S, data) + |data[x]|
    decreases |S|
  {
    LeastExists(S + {x});
    var i :| IsLeast(S + {x}, i);
    SumAtLeast(S + {x}, i, data);
    if i == x {
      assert S + {x} - {i} == S;
    } else {
      assert IsLeast(S, i);
      SumAtLeast(S, i, data);
      assert S + {x} - {i} == S - {i} + {x};
      SumOfAdded(S - {i}, x, data);
    }
    hide SumSizes;
  }

  lemma SumAtLeast(S: set<Inode>, i: Inode, data: map<Inode, Content>)
    requires S <= data.Keys && IsLeast(S, i)
    ensures SumSizes(S, data) == |data[i]| + SumSizes(S - {i}, data)
  {
  }

  /** Taking B away from A + B frees exactly the bytes of the inodes A does not share. */
  lemma {:induction false} SharedCountedOnce(A: set<Inode>, B: set<Inode>, data: map<Inode, Content>)
    requires A + B <= data.Keys
    ensures SumSizes(A + B, data) == SumSizes(A, data) + SumSizes(B - A, data)
    decreases |B - A|
  {
    if B - A == {} {
      assert A + B == A;
    } else {
      LeastExists(B - A);
      var i :| IsLeast(B - A, i);
      assert (B - {i}) - A == (B - A) - {i};
      SharedCountedOnce(A, B - {i}, data);
      assert A + B == A + (B - {i}) + {i} && B - A == (B - {i}) - A + {i};
      SumOfAdded(A + (B - {i}), i, data);
      SumOfAdded((B - {i}) - A, i, data);
    }
  }
}
