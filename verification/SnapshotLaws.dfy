/** What holds of a device's generations over every run of live writes, copies, prunes and pins. */
module SnapshotLaws {
  import opened Wrappers
  import opened Retention
  import opened RetentionLaws
  import opened Snapshots

  datatype Step =
    | Write(path: Path, content: Content, unused: Inode)
    | Delete(path: Path)
    | TakeStep(now: int, hardlinks: bool, rsync: Rsync)
    | CrashStep(now: int, hardlinks: bool, tree: Tree, data: map<Inode, Content>)  // death inside rsync
    | Scrap(now: int, left: Tree)                                   // death inside the removal of a partial copy
    | Prune(policy: Policy, off: int, order: Listing, calls: nat)
    | PinStep(t: int, pinned: bool)

  /** A copy that stopped anywhere still only holds fresh inodes and links to its base. */
  ghost predicate HonestTree(d: Disk, base: Option<Tree>, tree: Tree, data: map<Inode, Content>) {
    && (forall i :: i in d.data ==> i in data && data[i] == d.data[i])
    && (forall p :: p in tree ==>
         tree[p] in data && (tree[p] !in d.data || (base.Some? && p in base.value && tree[p] == base.value[p])))
  }

  /** Nothing in a that is not in b: what is left of b when entries were taken away. */
  ghost predicate Within<V>(a: map<Path, V>, b: map<Path, V>) {
    forall p :: p in a ==> p in b && a[p] == b[p]
  }

  ghost predicate Allowed(d: Disk, s: Step) {
    match s
    case Write(_, _, unused) => unused !in d.data
    case TakeStep(_, hardlinks, r) => RsyncHonest(d, LinkBase(d, hardlinks), r)
    case CrashStep(_, hardlinks, tree, data) => HonestTree(d, LinkBase(d, hardlinks), tree, data)
    case Scrap(now, left) => now in d.partials && Within(left, d.partials[now])
    case _ => true
  }

  function Apply(d: Disk, s: Step): Disk {
    match s
    case Write(p, c, unused) => WriteLive(d, p, c, unused)
    case Delete(p) => DeleteLive(d, p)
    case TakeStep(now, _, r) => TakeSpec(d, now, r).0
    case CrashStep(now, _, tree, data) => CrashInTake(d, now, tree, data)
    case Scrap(now, left) => d.(partials := d.partials[now := left])
    case Prune(p, off, order, calls) => PruneUntil(d, p, off, order, calls).0
    case PinStep(t, pinned) => PinSpec(d, t, pinned).0
  }

  // ---- What a removal that may stop anywhere leaves ------------------------------------------

  /** Generations not to be removed keep every file, no generation gains one, and at the end exactly the doomed are
      gone. */
  ghost predicate RemovedFrom(d: Disk, e: Disk, doomed: set<int>, whole: bool) {
    && e == d.(gens := e.gens, pins := e.pins) && d.pins - doomed <= e.pins <= d.pins && e.gens.Keys <= d.gens.Keys
    && (forall t :: t in e.gens ==> Within(e.gens[t], d.gens[t]))
    && (forall t :: t in d.gens && t !in doomed ==> t in e.gens && e.gens[t] == d.gens[t])
    && (whole ==> e.gens.Keys == d.gens.Keys - doomed && e.pins == d.pins - doomed)
  }

  lemma NothingRemoved(d: Disk)
    ensures RemovedFrom(d, d, {}, true)
  {
  }

  lemma CutIsRemovedFrom(d: Disk, t: int, files: seq<Path>, n: nat, doomed: set<int>)
    requires t in d.gens && n <= |files| && t in doomed
    ensures RemovedFrom(d, CutShort(d, t, files, n), doomed, false)
  {
  }

  lemma DroppedFirst(d: Disk, t: int, e: Disk, rest: set<int>, whole: bool)
    requires t in d.gens && t !in rest && RemovedFrom(Dropped(d, t), e, rest, whole)
    ensures RemovedFrom(d, e, rest + {t}, whole)
  {
    hide Within;
  }

  lemma {:induction false} RemovalFacts(d: Disk, doomed: seq<int>, order: Listing, calls: nat)
    requires StrictlyDown(doomed) && Elements(doomed) <= d.gens.Keys
    ensures var (e, whole) := RemoveAll(d, doomed, order, calls);
      RemovedFrom(d, e, Elements(doomed), whole)
    decreases |doomed|
  {
    hide RemovedFrom, CutShort, FilesOf;
    if doomed == [] {
      assert Elements(doomed) == {};
      NothingRemoved(d);
    } else {
      var t, files := doomed[0], FilesOf(order, doomed[0]);
      HeadIsElement(doomed);
      if calls <= |files| {
        CutIsRemovedFrom(d, t, files, calls, Elements(doomed));
      } else {
        HeadIsGone(doomed);
        RemovalFacts(Dropped(d, t), doomed[1..], order, calls - |files| - 1);
        var (e, whole) := RemoveAll(Dropped(d, t), doomed[1..], order, calls - |files| - 1);
        DroppedFirst(d, t, e, Elements(doomed[1..]), whole);
        assert Elements(doomed[1..]) + {t} == Elements(doomed);
      }
    }
  }

  lemma HeadIsGone(ts: seq<int>)
    requires StrictlyDown(ts) && ts != []
    ensures Elements(ts[1..]) == Elements(ts) - {ts[0]} && StrictlyDown(ts[1..])
  {
  }

  /** The removal stopped between two generations, or not at all. */
  predicate AtBoundary(doomed: seq<int>, order: Listing, calls: nat)
    decreases |doomed|
  {
    doomed == [] || calls == 0
    || (|FilesOf(order, doomed[0])| < calls && AtBoundary(doomed[1..], order, calls - |FilesOf(order, doomed[0])| - 1))
  }

  /** How many calls a removal takes: one per file and one per directory. */
  function Calls(doomed: seq<int>, order: Listing): nat
    decreases |doomed|
  {
    if doomed == [] then 0 else |FilesOf(order, doomed[0])| + 1 + Calls(doomed[1..], order)
  }

  /** A removal runs to its end exactly when all its calls succeed. */
  lemma {:induction false} RemovalEndsIff(d: Disk, doomed: seq<int>, order: Listing, calls: nat)
    requires StrictlyDown(doomed) && Elements(doomed) <= d.gens.Keys
    ensures RemoveAll(d, doomed, order, calls).1 <==> Calls(doomed, order) <= calls
    decreases |doomed|
  {
    hide CutShort, FilesOf;
    if doomed == [] {
    } else {
      var t, files := doomed[0], FilesOf(order, doomed[0]);
      HeadIsElement(doomed);
      if |files| < calls {
        HeadIsGone(doomed);
        RemovalEndsIff(Dropped(d, t), doomed[1..], order, calls - |files| - 1);
      }
    }
  }

  ghost predicate SameTrees(d: Disk, e: Disk) {
    forall t :: t in e.gens ==> t in d.gens && e.gens[t] == d.gens[t]
  }

  lemma CutShows(d: Disk, t: int, files: seq<Path>, n: nat)
    requires t in d.gens && n <= |files| && Elements(files) == d.gens[t].Keys
    ensures SameTrees(d, CutShort(d, t, files, n)) <==> n == 0
  {
    if n > 0 {
      assert files[0] in Elements(files) && files[0] in Elements(files[..n]);
      assert files[0] !in CutShort(d, t, files, n).gens[t];
    } else {
      CutNothing(d, t, files);
    }
  }

  lemma UntouchedTrees(d: Disk)
    ensures SameTrees(d, d)
  {
  }

  lemma ListingOf(order: Listing, d: Disk, t: int)
    requires ListsAll(order, d) && t in d.gens
    ensures Elements(FilesOf(order, t)) == d.gens[t].Keys && ListsAll(order, Dropped(d, t))
  {
  }

  lemma DroppedSameTrees(d: Disk, t: int, e: Disk)
    requires t in d.gens && e.gens.Keys <= Dropped(d, t).gens.Keys
    ensures SameTrees(Dropped(d, t), e) <==> SameTrees(d, e)
  {
  }

  /** Every generation still listed is as it was exactly when the removal stopped between two of them. */
  lemma {:induction false} StopIsCleanIff(d: Disk, doomed: seq<int>, order: Listing, calls: nat)
    requires StrictlyDown(doomed) && Elements(doomed) <= d.gens.Keys && ListsAll(order, d)
    ensures SameTrees(d, RemoveAll(d, doomed, order, calls).0) <==> AtBoundary(doomed, order, calls)
    decreases |doomed|
  {
    hide SameTrees, CutShort, FilesOf;
    if doomed == [] {
      UntouchedTrees(d);
    } else {
      var t, files := doomed[0], FilesOf(order, doomed[0]);
      HeadIsElement(doomed);
      ListingOf(order, d, t);
      hide ListsAll;
      if calls <= |files| {
        CutShows(d, t, files, calls);
      } else {
        HeadIsGone(doomed);
        var left := calls - |files| - 1;
        StopIsCleanIff(Dropped(d, t), doomed[1..], order, left);
        RemovalFacts(Dropped(d, t), doomed[1..], order, left);
        DroppedSameTrees(d, t, RemoveAll(Dropped(d, t), doomed[1..], order, left).0);
      }
    }
  }

  lemma RemovedIsPruned(d: Disk, e: Disk, kept: set<int>, whole: bool)
    requires RemovedFrom(d, e, d.gens.Keys - kept, whole) && d.pins <= kept <= d.gens.Keys
    ensures e.pins == d.pins
    ensures whole ==>
      e.gens.Keys == kept && e == d.(gens := map t | t in d.gens && t in kept :: d.gens[t], pins := d.pins * kept)
  {
    assert d.pins - (d.gens.Keys - kept) == d.pins;
    hide Within;
    if whole {
      assert d.pins * kept == d.pins && e.gens.Keys == kept;
      assert forall t :: t in kept ==> t !in d.gens.Keys - kept && e.gens[t] == d.gens[t];
      assert e.gens == map t | t in d.gens && t in kept :: d.gens[t];
    }
  }

  /** A pruning that runs to its end leaves what the plan keeps. */
  lemma PruneUntilFacts(d: Disk, p: Policy, off: int, order: Listing, calls: nat)
    requires d.pins <= d.gens.Keys
    ensures var (e, whole) := PruneUntil(d, p, off, order, calls);
      && RemovedFrom(d, e, Doomed(d, p, off), whole) && e.pins == d.pins
      && (whole ==> e == PruneSpec(d, p, off) && e.gens.Keys == Survivors(d.gens.Keys, d.pins, p, off))
  {
    RemovalFacts(d, Descending(Doomed(d, p, off)), order, calls);
    PinnedSurvive(d.gens.Keys, d.pins, p, off);
    SurvivorsSubset(d.gens.Keys, d.pins, p, off);
    hide Survivors, Descending, RemoveAll, RemovedFrom;
    var (e, whole) := PruneUntil(d, p, off, order, calls);
    RemovedIsPruned(d, e, Survivors(d.gens.Keys, d.pins, p, off), whole);
  }

  // ---- Isolation ---------------------------------------------------------------------------

  ghost predicate Stored(tree: Tree, data: map<Inode, Content>) {
    forall p :: p in tree ==> tree[p] in data
  }

  ghost predicate Disjoint(a: Tree, b: Tree) {
    forall p, q :: p in a && q in b ==> a[p] != b[q]
  }

  /** No live file shares an inode with any generation or partial copy. */
  ghost predicate Isolated(d: Disk) {
    && Stored(d.live, d.data)
    && (forall t :: t in d.gens ==> Stored(d.gens[t], d.data) && Disjoint(d.live, d.gens[t]))
    && (forall t :: t in d.partials ==> Stored(d.partials[t], d.data) && Disjoint(d.live, d.partials[t]))
    && d.pins <= d.gens.Keys
  }

  lemma CopyIsIsolated(d: Disk, hardlinks: bool, tree: Tree, data: map<Inode, Content>)
    requires Isolated(d) && HonestTree(d, LinkBase(d, hardlinks), tree, data)
    ensures Stored(tree, data) && Disjoint(d.live, tree)
  {
    forall p, q | p in d.live && q in tree ensures d.live[p] != tree[q] {
      if tree[q] in d.data {
        var t := Max(d.gens.Keys);
        assert Disjoint(d.live, d.gens[t]);
      }
    }
  }

  lemma HonestCopy(d: Disk, base: Option<Tree>, r: Rsync)
    requires RsyncHonest(d, base, r) && r.Copied?
    ensures HonestTree(d, base, r.tree, r.data)
  {
  }

  lemma StoredInMore(tree: Tree, data: map<Inode, Content>, more: map<Inode, Content>)
    requires Stored(tree, data) && data.Keys <= more.Keys
    ensures Stored(tree, more)
  {
  }

  lemma TakeKeepsIsolation(d: Disk, now: int, hardlinks: bool, r: Rsync)
    requires Isolated(d) && RsyncHonest(d, LinkBase(d, hardlinks), r)
    ensures Isolated(TakeSpec(d, now, r).0)
  {
    hide RsyncHonest, LinkBase, Stored, Disjoint;
    if r.Copied? {
      HonestCopy(d, LinkBase(d, hardlinks), r);
      CopyIsIsolated(d, hardlinks, r.tree, r.data);
      assert d.data.Keys <= r.data.Keys;
      StoredInMore(d.live, d.data, r.data);
      forall t | t in d.gens ensures Stored(d.gens[t], r.data) {
        StoredInMore(d.gens[t], d.data, r.data);
      }
      forall t | t in d.partials ensures Stored(d.partials[t], r.data) {
        StoredInMore(d.partials[t], d.data, r.data);
      }
    }
  }

  lemma RemovalKeepsIsolation(d: Disk, e: Disk, doomed: set<int>, whole: bool)
    requires Isolated(d) && RemovedFrom(d, e, doomed, whole) && e.pins <= e.gens.Keys
    ensures Isolated(e)
  {
    forall t | t in e.gens ensures Stored(e.gens[t], e.data) && Disjoint(e.live, e.gens[t]) {
      assert Within(e.gens[t], d.gens[t]) && Stored(d.gens[t], d.data) && Disjoint(d.live, d.gens[t]);
    }
  }

  lemma PruneKeepsIsolation(d: Disk, p: Policy, off: int, order: Listing, calls: nat)
    requires Isolated(d)
    ensures Isolated(PruneUntil(d, p, off, order, calls).0)
  {
    PruneUntilFacts(d, p, off, order, calls);
    PinnedSurvive(d.gens.Keys, d.pins, p, off);
    var (e, whole) := PruneUntil(d, p, off, order, calls);
    hide Survivors, PruneUntil, PruneSpec;
    assert d.pins * Doomed(d, p, off) == {};
    assert forall t :: t in d.pins ==> t in d.gens && t !in Doomed(d, p, off);
    RemovalKeepsIsolation(d, e, Doomed(d, p, off), whole);
  }

  lemma CrashKeepsIsolation(d: Disk, now: int, hardlinks: bool, tree: Tree, data: map<Inode, Content>)
    requires Isolated(d) && HonestTree(d, LinkBase(d, hardlinks), tree, data)
    ensures Isolated(CrashInTake(d, now, tree, data))
  {
    CopyIsIsolated(d, hardlinks, tree, data);
    hide LinkBase;
  }

  lemma SmallStepKeepsIsolation(d: Disk, s: Step)
    requires Isolated(d) && Allowed(d, s) && (s.Write? || s.Delete? || s.Scrap? || s.PinStep?)
    ensures Isolated(Apply(d, s))
  {
  }

  lemma StepKeepsIsolation(d: Disk, s: Step)
    requires Isolated(d) && Allowed(d, s)
    ensures Isolated(Apply(d, s))
  {
    hide Isolated, TakeSpec, PruneUntil, CrashInTake, LinkBase, RsyncHonest, HonestTree;
    match s
    case TakeStep(now, hardlinks, r) => TakeKeepsIsolation(d, now, hardlinks, r);
    case CrashStep(now, hardlinks, tree, data) => CrashKeepsIsolation(d, now, hardlinks, tree, data);
    case Prune(p, off, order, calls) => PruneKeepsIsolation(d, p, off, order, calls);
    case _ => SmallStepKeepsIsolation(d, s);
  }

  ghost predicate RunAllowed(d: Disk, steps: seq<Step>)
    decreases |steps|
  {
    steps == [] || (Allowed(d, steps[0]) && RunAllowed(Apply(d, steps[0]), steps[1..]))
  }

  function RunTo(d: Disk, steps: seq<Step>): Disk
    decreases |steps|
  {
    if steps == [] then d else RunTo(Apply(d, steps[0]), steps[1..])
  }

  /** Every reachable state keeps live inodes apart from all snapshot inodes. */
  lemma {:induction false} IsolationKept(d: Disk, steps: seq<Step>)
    requires Isolated(d) && RunAllowed(d, steps)
    ensures Isolated(RunTo(d, steps))
    decreases |steps|
  {
    if steps == [] {
    } else {
      StepKeepsIsolation(d, steps[0]);
      IsolationKept(Apply(d, steps[0]), steps[1..]);
    }
  }

  /** No pruning that does not keep t, and no copy into the empty directory t. */
  ghost predicate LeftAlone(d: Disk, s: Step, t: int) {
    match s
    case TakeStep(now, _, _) => now == t && t in d.gens ==> d.gens[t] != map[]
    case Prune(p, off, _, _) => t !in Doomed(d, p, off)
    case _ => true
  }

  ghost predicate LeftAloneThroughout(d: Disk, steps: seq<Step>, t: int)
    decreases |steps|
  {
    steps == [] || (LeftAlone(d, steps[0], t) && LeftAloneThroughout(Apply(d, steps[0]), steps[1..], t))
  }

  /** Inodes that are no live file's keep their content, and the tree of t is untouched. */
  ghost predicate KeepsGeneration(d: Disk, e: Disk, t: int)
    requires t in d.gens
  {
    && t in e.gens && e.gens[t] == d.gens[t]
    && forall p :: p in d.gens[t] ==>
      d.gens[t][p] in d.data && d.gens[t][p] in e.data && e.data[d.gens[t][p]] == d.data[d.gens[t][p]]
  }

  lemma SameInodesSameContents(d: Disk, e: Disk, t: int)
    requires t in d.gens && KeepsGeneration(d, e, t)
    ensures Contents(e.gens[t], e.data) == Contents(d.gens[t], d.data)
  {
  }

  lemma WriteKeepsGeneration(d: Disk, s: Step, t: int)
    requires Isolated(d) && Allowed(d, s) && t in d.gens && (s.Write? || s.Delete? || s.Scrap? || s.PinStep?)
    ensures KeepsGeneration(d, Apply(d, s), t)
  {
    assert Stored(d.gens[t], d.data) && Disjoint(d.live, d.gens[t]);
    hide Isolated, Stored;
    forall p | p in d.gens[t] ensures d.gens[t][p] in d.data {
      assert Stored(d.gens[t], d.data);
      StoredAt(d.gens[t], d.data, p);
    }
  }

  lemma StoredAt(tree: Tree, data: map<Inode, Content>, p: Path)
    requires Stored(tree, data) && p in tree
    ensures tree[p] in data
  {
  }

  lemma CopyKeepsGeneration(d: Disk, s: Step, t: int)
    requires Isolated(d) && Allowed(d, s) && t in d.gens && (s.TakeStep? || s.CrashStep?) && LeftAlone(d, s, t)
    ensures KeepsGeneration(d, Apply(d, s), t)
  {
    assert Stored(d.gens[t], d.data);
    hide Isolated, LinkBase;
  }

  lemma DoomedAreListed(d: Disk, p: Policy, off: int)
    ensures Doomed(d, p, off) <= d.gens.Keys
  {
    hide Survivors;
  }

  lemma RemovalKeepsGeneration(d: Disk, e: Disk, doomed: set<int>, whole: bool, t: int)
    requires t in d.gens && t !in doomed && Stored(d.gens[t], d.data) && RemovedFrom(d, e, doomed, whole)
    ensures KeepsGeneration(d, e, t)
  {
  }

  lemma PruneKeepsGeneration(d: Disk, p: Policy, off: int, order: Listing, calls: nat, t: int)
    requires Isolated(d) && t in d.gens && t !in Doomed(d, p, off)
    ensures KeepsGeneration(d, PruneUntil(d, p, off, order, calls).0, t)
  {
    assert Stored(d.gens[t], d.data);
    hide Survivors, Doomed, Isolated, Stored, RemovedFrom, KeepsGeneration, Descending, RemoveAll, StrictlyDown;
    var doomed := Descending(Doomed(d, p, off));
    DoomedAreListed(d, p, off);
    DescendingIsStrict(Doomed(d, p, off));
    RemovalFacts(d, doomed, order, calls);
    var (e, whole) := RemoveAll(d, doomed, order, calls);
    RemovalKeepsGeneration(d, e, Doomed(d, p, off), whole, t);
  }

  lemma DescendingIsStrict(S: set<int>)
    ensures StrictlyDown(Descending(S)) && Elements(Descending(S)) == S
  {
  }

  lemma ApplyPrune(d: Disk, s: Step, t: int)
    requires s.Prune?
    ensures Apply(d, s) == PruneUntil(d, s.policy, s.off, s.order, s.calls).0
    ensures LeftAlone(d, s, t) <==> t !in Doomed(d, s.policy, s.off)
  {
    hide PruneUntil, Doomed;
  }

  lemma StepKeepsInodes(d: Disk, s: Step, t: int)
    requires Isolated(d) && Allowed(d, s) && LeftAlone(d, s, t) && t in d.gens
    ensures KeepsGeneration(d, Apply(d, s), t)
  {
    hide Isolated, Allowed, Apply, LeftAlone, KeepsGeneration, PruneUntil, Doomed;
    match s
    case TakeStep(_, _, _) => CopyKeepsGeneration(d, s, t);
    case CrashStep(_, _, _, _) => CopyKeepsGeneration(d, s, t);
    case Prune(p, off, order, calls) =>
      ApplyPrune(d, s, t);
      PruneKeepsGeneration(d, p, off, order, calls, t);
    case _ => WriteKeepsGeneration(d, s, t);
  }

  lemma StepKeepsGeneration(d: Disk, s: Step, t: int)
    requires Isolated(d) && Allowed(d, s) && LeftAlone(d, s, t) && t in d.gens
    ensures t in Apply(d, s).gens && Apply(d, s).gens[t] == d.gens[t]
    ensures Contents(Apply(d, s).gens[t], Apply(d, s).data) == Contents(d.gens[t], d.data)
  {
    hide Isolated, Allowed, Apply, LeftAlone, Contents;
    StepKeepsInodes(d, s, t);
    SameInodesSameContents(d, Apply(d, s), t);
  }

  /** Over every run of steps a listed generation stays listed, with the same tree and the same contents, until a
      pruning sets out to remove it. */
  lemma {:induction false} GenerationNeverChanges(d: Disk, steps: seq<Step>, t: int)
    requires Isolated(d) && RunAllowed(d, steps) && LeftAloneThroughout(d, steps, t) && t in d.gens
    ensures t in RunTo(d, steps).gens && RunTo(d, steps).gens[t] == d.gens[t]
    ensures Contents(RunTo(d, steps).gens[t], RunTo(d, steps).data) == Contents(d.gens[t], d.data)
    decreases |steps|
  {
    if steps == [] {
    } else {
      StepKeepsIsolation(d, steps[0]);
      StepKeepsGeneration(d, steps[0], t);
      hide Isolated, Apply, Allowed, LeftAlone;
      GenerationNeverChanges(Apply(d, steps[0]), steps[1..], t);
    }
  }

  /** Never link against live: a tree survives every in-place write exactly when it shares no inode with a live
      file. */
  lemma SafeFromWritesIffDisjoint(d: Disk, t: int)
    requires t in d.gens && Stored(d.live, d.data) && Stored(d.gens[t], d.data)
    ensures (forall p, c :: p in d.live ==>
               Contents(d.gens[t], WriteLive(d, p, c, 0).data) == Contents(d.gens[t], d.data))
       <==> Disjoint(d.live, d.gens[t])
  {
    if !Disjoint(d.live, d.gens[t]) {
      var p, q :| p in d.live && q in d.gens[t] && d.live[p] == d.gens[t][q];
      var c := d.data[d.live[p]] + [0];
      assert Contents(d.gens[t], WriteLive(d, p, c, 0).data)[q] == c;
      assert Contents(d.gens[t], d.data)[q] != c;
    }
  }

  /** A successful copy holds exactly the live content of that moment. */
  lemma TakeCopiesLive(d: Disk, now: int, hardlinks: bool, r: Rsync)
    requires RsyncHonest(d, LinkBase(d, hardlinks), r) && Stored(d.live, d.data)
    requires TakeSpec(d, now, r).1.Ok?
    ensures var d' := TakeSpec(d, now, r).0;
      now in d'.gens && Contents(d'.gens[now], d'.data) == Contents(d.live, d.data)
  {
    var d' := TakeSpec(d, now, r).0;
    assert d'.gens[now] == r.tree && d'.data == r.data;
    assert r.tree.Keys == d.live.Keys;
    assert forall p :: p in d.live ==> p in r.tree && r.data[r.tree[p]] == d.data[d.live[p]];
  }

  // ---- The life of a device: writes, deaths, and backups that take and prune ------------------

  datatype Event =
    | Other(step: Step)  // a live write or deletion, or a death before the copy was complete
    | Backup(now: int, rsync: Rsync, order: Listing, calls: nat)  // calls is 0 when the process died before retention

  /** A disk, every generation ever taken, and what the live files held at each taking. */
  datatype Past = Past(disk: Disk, taken: set<int>, log: map<int, map<Path, Content>>)

  predicate NoBackup(s: Step) {
    s.Write? || s.Delete? || s.CrashStep? || s.Scrap?
  }

  ghost predicate EventAllowed(a: Past, e: Event, hardlinks: bool) {
    match e
    case Other(s) => NoBackup(s) && Allowed(a.disk, s)
    case Backup(_, r, _, _) => RsyncHonest(a.disk, LinkBase(a.disk, hardlinks), r)
  }

  function Taking(a: Past, now: int, r: Rsync): Past {
    var (d, result) := TakeSpec(a.disk, now, r);
    if result.Err? then a.(disk := d)
    else Past(d, a.taken + {now}, a.log[now := Contents(a.disk.live, a.disk.data)])
  }

  function After(a: Past, e: Event, p: Policy, off: int): Past {
    match e
    case Other(s) => a.(disk := Apply(a.disk, s))
    case Backup(now, r, order, calls) =>
      var b := Taking(a, now, r);
      if TakeSpec(a.disk, now, r).1.Err? then b else b.(disk := PruneUntil(b.disk, p, off, order, calls).0)
  }

  /** The listed generations of a history hold nothing but what was live at their own second, and those the plan over
      everything ever taken keeps are listed and hold all of it. */
  ghost predicate Sound(a: Past, pins: set<int>, p: Policy, off: int) {
    && Isolated(a.disk) && a.disk.pins == pins
    && Survivors(a.taken, pins, p, off) <= a.disk.gens.Keys <= a.taken
    && (forall t :: t in a.disk.gens ==> t in a.log && Within(Contents(a.disk.gens[t], a.disk.data), a.log[t]))
    && (forall t :: t in Survivors(a.taken, pins, p, off) ==> Contents(a.disk.gens[t], a.disk.data) == a.log[t])
  }

  /** No listed generation lacks a file. */
  ghost predicate Intact(a: Past) {
    forall t :: t in a.disk.gens ==> t in a.log && Contents(a.disk.gens[t], a.disk.data) == a.log[t]
  }

  /** Every generation of d is in e, with the same contents. */
  ghost predicate SameGenerations(d: Disk, e: Disk) {
    e.gens == d.gens && e.pins == d.pins
    && forall t :: t in d.gens ==> Contents(e.gens[t], e.data) == Contents(d.gens[t], d.data)
  }

  lemma SameGenerationsSound(a: Past, d: Disk, pins: set<int>, p: Policy, off: int)
    requires Sound(a, pins, p, off) && SameGenerations(a.disk, d) && Isolated(d)
    ensures Sound(a.(disk := d), pins, p, off) && (Intact(a) ==> Intact(a.(disk := d)))
  {
    hide Survivors, Isolated, Contents;
  }

  lemma OtherKeepsListing(d: Disk, s: Step)
    requires NoBackup(s)
    ensures Apply(d, s).gens == d.gens && Apply(d, s).pins == d.pins
  {
  }

  lemma OtherLeavesAlone(d: Disk, s: Step, t: int)
    requires NoBackup(s)
    ensures LeftAlone(d, s, t)
  {
  }

  lemma OtherKeepsGenerations(d: Disk, s: Step)
    requires Isolated(d) && NoBackup(s) && Allowed(d, s)
    ensures SameGenerations(d, Apply(d, s)) && Isolated(Apply(d, s))
  {
    hide Isolated, Allowed, Apply, LeftAlone, Contents, NoBackup;
    StepKeepsIsolation(d, s);
    OtherKeepsListing(d, s);
    forall t | t in d.gens ensures Contents(d.gens[t], Apply(d, s).data) == Contents(d.gens[t], d.data) {
      OtherLeavesAlone(d, s, t);
      StepKeepsGeneration(d, s, t);
    }
  }

  lemma FailedTakeKeepsListing(d: Disk, now: int, hardlinks: bool, r: Rsync)
    requires TakeSpec(d, now, r).1.Err?
    ensures TakeSpec(d, now, r).0.gens == d.gens && TakeSpec(d, now, r).0.pins == d.pins
    ensures RsyncHonest(d, LinkBase(d, hardlinks), r) ==>
      forall i :: i in d.data ==> i in TakeSpec(d, now, r).0.data && TakeSpec(d, now, r).0.data[i] == d.data[i]
  {
    hide LinkBase;
  }

  lemma FailedTakeKeepsGenerations(d: Disk, now: int, hardlinks: bool, r: Rsync)
    requires Isolated(d) && RsyncHonest(d, LinkBase(d, hardlinks), r) && TakeSpec(d, now, r).1.Err?
    ensures SameGenerations(d, TakeSpec(d, now, r).0) && Isolated(TakeSpec(d, now, r).0)
  {
    FailedTakeKeepsListing(d, now, hardlinks, r);
    TakeKeepsIsolation(d, now, hardlinks, r);
    hide TakeSpec, LinkBase, RsyncHonest;
    var e := TakeSpec(d, now, r).0;
    forall t | t in d.gens ensures Contents(e.gens[t], e.data) == Contents(d.gens[t], d.data) {
      assert Stored(d.gens[t], d.data);
      SameInodesSameContents(d, e, t);
    }
    hide Isolated, Contents;
  }

  /** e is d with one more, or refilled, generation of the live content; all others are as they were. */
  ghost predicate Added(d: Disk, e: Disk, now: int) {
    && Isolated(e) && e.gens.Keys == d.gens.Keys + {now} && e.pins == d.pins
    && Contents(e.gens[now], e.data) == Contents(d.live, d.data)
    && forall t :: t in d.gens && t != now ==> Contents(e.gens[t], e.data) == Contents(d.gens[t], d.data)
  }

  lemma TakeListing(d: Disk, now: int, hardlinks: bool, r: Rsync)
    requires TakeSpec(d, now, r).1.Ok?
    ensures var s := TakeStep(now, hardlinks, r);
      && Apply(d, s) == TakeSpec(d, now, r).0 && Apply(d, s).gens.Keys == d.gens.Keys + {now}
        && Apply(d, s).pins == d.pins
      && forall t :: t != now ==> LeftAlone(d, s, t)
  {
  }

  lemma TakeAdds(d: Disk, now: int, hardlinks: bool, r: Rsync)
    requires Isolated(d) && RsyncHonest(d, LinkBase(d, hardlinks), r) && TakeSpec(d, now, r).1.Ok?
    ensures Added(d, TakeSpec(d, now, r).0, now)
  {
    var s := TakeStep(now, hardlinks, r);
    TakeListing(d, now, hardlinks, r);
    TakeKeepsIsolation(d, now, hardlinks, r);
    TakeCopiesLive(d, now, hardlinks, r);
    hide Isolated, Contents, LinkBase, RsyncHonest, TakeSpec, Apply, LeftAlone;
    forall t | t in d.gens && t != now
      ensures Contents(Apply(d, s).gens[t], Apply(d, s).data) == Contents(d.gens[t], d.data)
    {
      StepKeepsGeneration(d, s, t);
    }
  }

  lemma AddedIsSound(a: Past, d: Disk, now: int, pins: set<int>, p: Policy, off: int)
    requires Sound(a, pins, p, off) && Added(a.disk, d, now)
    ensures var b := Past(d, a.taken + {now}, a.log[now := Contents(a.disk.live, a.disk.data)]);
      Sound(b, pins, p, off) && (Intact(a) ==> Intact(b))
  {
    SurvivorsOfAdded(a.taken, now, pins, p, off);
    SurvivorsSubset(a.taken + {now}, pins, p, off);
    hide Survivors, Isolated, Contents;
  }

  lemma TakeKeepsSound(a: Past, now: int, hardlinks: bool, r: Rsync, pins: set<int>, p: Policy, off: int)
    requires Sound(a, pins, p, off) && RsyncHonest(a.disk, LinkBase(a.disk, hardlinks), r)
    requires TakeSpec(a.disk, now, r).1.Ok?
    ensures Sound(Taking(a, now, r), pins, p, off) && (Intact(a) ==> Intact(Taking(a, now, r)))
  {
    TakeAdds(a.disk, now, hardlinks, r);
    AddedIsSound(a, TakeSpec(a.disk, now, r).0, now, pins, p, off);
    hide Sound, Intact, Added, TakeSpec, LinkBase, RsyncHonest;
  }

  /** Pruning, wherever it stops, spares what the plan over everything ever taken keeps; at its end nothing else is
      listed, and every listed generation is whole. */
  lemma PruneKeepsSound(a: Past, pins: set<int>, p: Policy, off: int, order: Listing, calls: nat)
    requires Sound(a, pins, p, off)
    ensures var (d, whole) := PruneUntil(a.disk, p, off, order, calls);
      && Sound(a.(disk := d), pins, p, off)
      && (whole ==> d.gens.Keys == Survivors(a.taken, pins, p, off) && Intact(a.(disk := d)))
  {
    var (d, whole) := PruneUntil(a.disk, p, off, order, calls);
    SurvivorsOfBetween(a.taken, a.disk.gens.Keys, pins, p, off);
    PruneUntilFacts(a.disk, p, off, order, calls);
    PruneKeepsIsolation(a.disk, p, off, order, calls);
    hide Survivors, Isolated, PruneUntil, PruneSpec;
    forall t | t in d.gens ensures Within(Contents(d.gens[t], d.data), a.log[t]) {
      assert Within(d.gens[t], a.disk.gens[t]) && Within(Contents(a.disk.gens[t], a.disk.data), a.log[t]);
    }
    forall t | t in Survivors(a.taken, pins, p, off) ensures t in d.gens && Contents(d.gens[t], d.data) == a.log[t] {
      assert t !in Doomed(a.disk, p, off);
    }
  }

  ghost predicate HistoryAllowed(a: Past, events: seq<Event>, hardlinks: bool, p: Policy, off: int)
    decreases |events|
  {
    events == [] ||
    (EventAllowed(a, events[0], hardlinks)
      && HistoryAllowed(After(a, events[0], p, off), events[1..], hardlinks, p, off))
  }

  function RunEvents(a: Past, events: seq<Event>, p: Policy, off: int): Past
    decreases |events|
  {
    if events == [] then a else RunEvents(After(a, events[0], p, off), events[1..], p, off)
  }

  lemma EventKeepsSound(a: Past, e: Event, hardlinks: bool, pins: set<int>, p: Policy, off: int)
    requires Sound(a, pins, p, off) && EventAllowed(a, e, hardlinks)
    ensures Sound(After(a, e, p, off), pins, p, off)
  {
    match e
    case Other(s) =>
      OtherKeepsGenerations(a.disk, s);
      SameGenerationsSound(a, Apply(a.disk, s), pins, p, off);
    case Backup(now, r, order, calls) =>
      if TakeSpec(a.disk, now, r).1.Err? {
        FailedTakeKeepsGenerations(a.disk, now, hardlinks, r);
        SameGenerationsSound(a, TakeSpec(a.disk, now, r).0, pins, p, off);
      } else {
        TakeKeepsSound(a, now, hardlinks, r, pins, p, off);
        PruneKeepsSound(Taking(a, now, r), pins, p, off, order, calls);
      }
    hide Sound, Survivors, PruneUntil, Isolated, SameGenerations;
  }

  /** Over any history of writes and backups, failed, stopped anywhere or complete: what one plan over everything ever
      taken keeps is listed and holds exactly the live files of its own second; anything else still listed holds no
      other files than those, so it can only lack some. */
  lemma {:induction false} HistoryIsSound(a: Past, events: seq<Event>, hardlinks: bool, pins: set<int>, p: Policy,
        off: int)
    requires Sound(a, pins, p, off) && HistoryAllowed(a, events, hardlinks, p, off)
    ensures Sound(RunEvents(a, events, p, off), pins, p, off)
    decreases |events|
  {
    if events == [] {
    } else {
      hide Sound, After, EventAllowed;
      EventKeepsSound(a, events[0], hardlinks, pins, p, off);
      HistoryIsSound(After(a, events[0], p, off), events[1..], hardlinks, pins, p, off);
    }
  }

  /** After any such history, one backup that runs to its end leaves exactly what a single plan over every generation
      ever taken keeps, each with all the files of its second. */
  lemma BackupEndsExact(a: Past, events: seq<Event>, e: Event, hardlinks: bool, pins: set<int>, p: Policy, off: int)
    requires Sound(a, pins, p, off) && HistoryAllowed(a, events, hardlinks, p, off)
    requires var b := RunEvents(a, events, p, off);
      && e.Backup? && EventAllowed(b, e, hardlinks) && TakeSpec(b.disk, e.now, e.rsync).1.Ok?
      && PruneUntil(Taking(b, e.now, e.rsync).disk, p, off, e.order, e.calls).1
    ensures var b := RunEvents(a, events, p, off);
      var c := After(b, e, p, off);
      && c.disk.gens.Keys == Survivors(b.taken + {e.now}, pins, p, off) && Intact(c)
      && c.log == b.log[e.now := Contents(b.disk.live, b.disk.data)]
  {
    var b := RunEvents(a, events, p, off);
    HistoryIsSound(a, events, hardlinks, pins, p, off);
    TakeKeepsSound(b, e.now, hardlinks, e.rsync, pins, p, off);
    PruneKeepsSound(Taking(b, e.now, e.rsync), pins, p, off, e.order, e.calls);
    hide Sound, Survivors, RunEvents, RsyncHonest, LinkBase, PruneUntil, Intact;
  }

  // ---- What pruning frees ----------------------------------------------------------------------

  function Inodes(gens: map<int, Tree>): set<Inode> {
    set t, p | t in gens && p in gens[t] :: gens[t][p]
  }

  /** The generations retention removes. */
  function Removed(d: Disk, p: Policy, off: int): map<int, Tree> {
    d.gens - PruneSpec(d, p, off).gens.Keys
  }

  lemma {:induction false} InodesSplit(d: Disk, p: Policy, off: int)
    ensures Inodes(d.gens) == Inodes(PruneSpec(d, p, off).gens) + Inodes(Removed(d, p, off))
  {
    hide Survivors;
    forall t, q | t in d.gens && q in d.gens[t]
      ensures d.gens[t][q] in Inodes(PruneSpec(d, p, off).gens) + Inodes(Removed(d, p, off))
    {
      assert t in PruneSpec(d, p, off).gens || t in Removed(d, p, off);
    }
  }

  /** A complete pruning brings the disk usage of a device's generations down by exactly the bytes of the removed
      files that no kept generation shares. */
  lemma PruningFrees(d: Disk, p: Policy, off: int)
    requires Isolated(d)
    ensures var kept := PruneSpec(d, p, off).gens;
      && Inodes(d.gens) <= d.data.Keys && Inodes(kept) <= d.data.Keys && Inodes(Removed(d, p, off)) <= d.data.Keys
      && SumSizes(Inodes(d.gens), d.data)
         == SumSizes(Inodes(kept), d.data) + SumSizes(Inodes(Removed(d, p, off)) - Inodes(kept), d.data)
  {
    InodesSplit(d, p, off);
    assert Inodes(d.gens) <= d.data.Keys by {
      assert forall t :: t in d.gens ==> Stored(d.gens[t], d.data);
    }
    hide Isolated, Inodes, PruneSpec, SumSizes, Removed;
    SharedCountedOnce(Inodes(PruneSpec(d, p, off).gens), Inodes(Removed(d, p, off)), d.data);
  }

  // ---- When a generation is listed with files missing ------------------------------------------

  lemma MissingFileShows(d: Disk, e: Disk, t: int)
    requires t in d.gens && Stored(d.gens[t], d.data) && t in e.gens && Within(e.gens[t], d.gens[t]) && e.data == d.data
    ensures Contents(e.gens[t], e.data) == Contents(d.gens[t], d.data) <==> e.gens[t] == d.gens[t]
  {
    assert Contents(e.gens[t], e.data).Keys == e.gens[t].Keys;
    assert Contents(d.gens[t], d.data).Keys == d.gens[t].Keys;
  }

  lemma IntactIffSameTrees(a: Past, e: Disk)
    requires Isolated(a.disk) && Intact(a) && e.data == a.disk.data && e.gens.Keys <= a.disk.gens.Keys
    requires forall t :: t in e.gens ==> Within(e.gens[t], a.disk.gens[t])
    ensures Intact(a.(disk := e)) <==> SameTrees(a.disk, e)
  {
    forall t | t in e.gens ensures Contents(e.gens[t], e.data) == a.log[t] <==> e.gens[t] == a.disk.gens[t] {
      MissingFileShows(a.disk, e, t);
    }
    hide Isolated, Contents;
  }

  /** From a past without missing files, a pruning leaves one exactly when it stops between two generations or not at
      all. */
  lemma IntactAfterPruneIff(a: Past, pins: set<int>, p: Policy, off: int, order: Listing, calls: nat)
    requires Sound(a, pins, p, off) && Intact(a) && ListsAll(order, a.disk)
    ensures Intact(a.(disk := PruneUntil(a.disk, p, off, order, calls).0))
       <==> AtBoundary(Descending(Doomed(a.disk, p, off)), order, calls)
  {
    hide Survivors, Contents, ListsAll, AtBoundary, Doomed, RemoveAll, Intact, SameTrees, PruneSpec;
    PruneUntilFacts(a.disk, p, off, order, calls);
    DoomedAreListed(a.disk, p, off);
    StopIsCleanIff(a.disk, Descending(Doomed(a.disk, p, off)), order, calls);
    IntactIffSameTrees(a, PruneUntil(a.disk, p, off, order, calls).0);
  }

  /** One file removed from the newest doomed generation, and the process dies: it is listed without that file. */
  lemma OneUnlinkTruncates(a: Past, pins: set<int>, p: Policy, off: int, order: Listing)
    requires Sound(a, pins, p, off) && Intact(a) && ListsAll(order, a.disk)
    requires Doomed(a.disk, p, off) != {} && a.disk.gens[Max(Doomed(a.disk, p, off))] != map[]
    ensures var t := Max(Doomed(a.disk, p, off));
      var d := PruneUntil(a.disk, p, off, order, 1).0;
      t in d.gens && Contents(d.gens[t], d.data) != a.log[t]
  {
    var t := Max(Doomed(a.disk, p, off));
    var files := FilesOf(order, t);
    RemoveFirst(a.disk, t, Descending(Doomed(a.disk, p, off) - {t}), order, 1);
    assert Elements(files) != {} && files != [];
    assert files[0] in Elements(files) && Elements(files[..1]) == {files[0]};
    assert files[0] in Contents(a.disk.gens[t], a.disk.data);
    hide Survivors, Doomed, RemoveAll;
  }

  const KEEP_ONE: Policy := Policy(1, 0, 0, 0, 0)
  const TWICE: Tree := map["a" := 1]
  const TWO_TAKEN: Past :=
    Past(Disk(map["a" := 2], map[1 := TWICE, 2 := TWICE], map[], {}, map[1 := [7], 2 := [7]]), {1, 2},
         map[1 := map["a" := [7]], 2 := map["a" := [7]]])

  lemma KeepOneKeepsNewest(t: int)
    ensures t in Survivors({1, 2}, {}, KEEP_ONE, 0) <==> t == 2
  {
    FullCopiesKeepLatestAndPinned({1, 2}, {}, KEEP_ONE, 0, t);
    assert 2 in Newer({1, 2}, 1);
    hide Survivors;
  }

  lemma TwoTakenIsSound()
    ensures Sound(TWO_TAKEN, {}, KEEP_ONE, 0) && Intact(TWO_TAKEN)
  {
    forall t ensures t in Survivors({1, 2}, {}, KEEP_ONE, 0) <==> t == 2 {
      KeepOneKeepsNewest(t);
    }
    hide Survivors;
    assert TWO_TAKEN.disk.gens.Keys == {1, 2};
    assert Contents(TWICE, TWO_TAKEN.disk.data) == map["a" := [7]];
  }

  const TWICE_LISTED: Listing := map[1 := ["a"], 2 := ["a"]]

  lemma TwoTakenIsListed()
    ensures ListsAll(TWICE_LISTED, TWO_TAKEN.disk)
  {
    assert Elements(["a"]) == {"a"} == TWICE.Keys;
  }

  lemma OneIsDoomed()
    ensures Doomed(TWO_TAKEN.disk, KEEP_ONE, 0) == {1}
  {
    hide Survivors;
    assert TWO_TAKEN.disk.gens.Keys == {1, 2};
    forall t ensures t in Survivors({1, 2}, {}, KEEP_ONE, 0) <==> t == 2 {
      KeepOneKeepsNewest(t);
    }
  }

  lemma FirstIsDoomed()
    ensures Descending(Doomed(TWO_TAKEN.disk, KEEP_ONE, 0)) == [1]
  {
    hide Doomed, Descending;
    OneIsDoomed();
    assert Elements([1]) == {1};
    DescendingIsUnique(Descending({1}), [1]);
  }

  lemma OneUnlink()
    ensures RemoveAll(TWO_TAKEN.disk, [1], TWICE_LISTED, 1).0 == TWO_TAKEN.disk.(gens := map[1 := map[], 2 := TWICE])
  {
    assert ["a"][..1] == ["a"] && "a" in Elements(["a"]);
    assert Without(TWICE, ["a"], 1) == map[];
    assert FilesOf(TWICE_LISTED, 1) == ["a"];
  }

  /** Two copies of one file, the policy keeps one, and the pruning dies after its first unlink: the older generation
      is listed and empty. */
  lemma TruncationHappens()
    ensures Sound(TWO_TAKEN, {}, KEEP_ONE, 0) && Intact(TWO_TAKEN) && ListsAll(TWICE_LISTED, TWO_TAKEN.disk)
    ensures PruneUntil(TWO_TAKEN.disk, KEEP_ONE, 0, TWICE_LISTED, 1).0
         == TWO_TAKEN.disk.(gens := map[1 := map[], 2 := TWICE])
  {
    hide Sound, Intact, ListsAll, Doomed, Descending, RemoveAll;
    TwoTakenIsSound();
    TwoTakenIsListed();
    FirstIsDoomed();
    OneUnlink();
  }

  /** What a later complete pruning does about it, under whatever policy and pins hold by then: all is whole again
      exactly when it keeps none of the generations that lack files. */
  lemma WholeAgainIff(a: Past, p: Policy, off: int, order: Listing, calls: nat)
    requires Isolated(a.disk) && PruneUntil(a.disk, p, off, order, calls).1
    requires forall t :: t in a.disk.gens ==> t in a.log
    ensures Intact(a.(disk := PruneUntil(a.disk, p, off, order, calls).0)) <==>
      forall t :: t in Survivors(a.disk.gens.Keys, a.disk.pins, p, off) && t in a.disk.gens ==>
        Contents(a.disk.gens[t], a.disk.data) == a.log[t]
  {
    PruneUntilFacts(a.disk, p, off, order, calls);
    SurvivorsSubset(a.disk.gens.Keys, a.disk.pins, p, off);
    hide Survivors, Isolated, Contents, PruneUntil;
  }

  // ---- Pins ----------------------------------------------------------------------------------

  /** Nobody clears the marker of t, and no copy of the same second fills its directory. */
  predicate KeepsPin(s: Step, t: int) {
    !(s.PinStep? && s.t == t && !s.pinned) && !(s.TakeStep? && s.now == t)
  }

  lemma PinnedStep(d: Disk, s: Step, t: int)
    requires Isolated(d) && Allowed(d, s) && t in d.pins && KeepsPin(s, t)
    ensures t in Apply(d, s).pins && LeftAlone(d, s, t)
  {
    if s.Prune? {
      PruneUntilFacts(d, s.policy, s.off, s.order, s.calls);
      PinnedSurvive(d.gens.Keys, d.pins, s.policy, s.off);
      assert t in d.gens.Keys * d.pins;
    }
    hide Survivors, PruneUntil, PruneSpec, LinkBase, RsyncHonest;
  }

  lemma {:induction false} PinnedThroughout(d: Disk, steps: seq<Step>, t: int)
    requires Isolated(d) && RunAllowed(d, steps) && t in d.pins
    requires forall i :: 0 <= i < |steps| ==> KeepsPin(steps[i], t)
    ensures t in RunTo(d, steps).pins && LeftAloneThroughout(d, steps, t)
    decreases |steps|
  {
    hide Isolated, Apply, Allowed, LeftAlone, KeepsPin;
    if steps == [] {
    } else {
      PinnedStep(d, steps[0], t);
      StepKeepsIsolation(d, steps[0]);
      PinnedThroughout(Apply(d, steps[0]), steps[1..], t);
    }
  }

  /** Once pinned, a generation stays listed with the same files over every run of writes, copies, deaths and
      prunings, until somebody clears the pin; clearing it makes the policy alone decide again. */
  lemma PinnedIsKept(d: Disk, t: int, steps: seq<Step>)
    requires Isolated(d) && t in d.gens && RunAllowed(PinSpec(d, t, true).0, steps)
    requires forall i :: 0 <= i < |steps| ==> KeepsPin(steps[i], t)
    ensures var e := RunTo(PinSpec(d, t, true).0, steps);
      t in e.gens && e.gens[t] == d.gens[t] && Contents(e.gens[t], e.data) == Contents(d.gens[t], d.data) && t in e.pins
    ensures t !in PinSpec(d, t, false).0.pins
  {
    var d' := PinSpec(d, t, true).0;
    StepKeepsIsolation(d, PinStep(t, true));
    PinnedThroughout(d', steps, t);
    GenerationNeverChanges(d', steps, t);
    hide Isolated, RunTo, RunAllowed, LeftAloneThroughout, KeepsPin, Contents;
  }

  lemma PolicyWithLinks(p: Policy)
    ensures EffectivePolicy(true, p) == p && EffectivePolicy(false, p) == Policy(1, 0, 0, 0, 0)
  {
  }

  /** Without hard links only the newest and the pinned generations are left. */
  lemma FullCopiesKeepLatestAndPinned(S: set<int>, pins: set<int>, p: Policy, off: int, t: int)
    ensures t in Survivors(S, pins, EffectivePolicy(false, p), off) <==> t in S && (t in pins || IsNewest(S, t))
  {
    hide Survivors, IsNewest, KeptBy, Bucketing;
    SurvivesIff(S, pins, EffectivePolicy(false, p), off, t);
    OneOrNone(S, t, Bucketing(off, Latest));
    OneOrNone(S, t, Bucketing(off, Daily));
    OneOrNone(S, t, Bucketing(off, Weekly));
    OneOrNone(S, t, Bucketing(off, Monthly));
    OneOrNone(S, t, Bucketing(off, Yearly));
  }

  lemma OneOrNone(S: set<int>, t: int, key: int -> Key)
    ensures KeptBy(S, t, 1, key) <==> IsNewest(S, t)
    ensures !KeptBy(S, t, 0, key)
  {
    assert Keys(Newer(S, t), key) == {} <==> Newer(S, t) == {} by {
      assert forall u :: u in Newer(S, t) ==> key(u) in Keys(Newer(S, t), key);
    }
  }
}
