/**
 Rotating the password of a local profile replaces two files, the profile and the vault
 index, through staging files and renames. A crash may stop the program after any file
 operation; startup recovery, which may itself be stopped, then finishes or undoes it.

 Each file is modelled by the rotation it belongs to and whether it is whole. Completed
 operations persist in order. A staging file may be stuck: it can be neither removed nor
 moved into place, and the program passes over such a failure while it cleans up.
 */
module DesktopRotation {
  import opened Results

  datatype File = File(gen: nat, complete: bool)

  datatype Disk = Disk(prof: File, idx: File, profNew: Option<File>, idxNew: Option<File>)

  datatype Slot = ProfNew | IdxNew

  datatype Op =
    | Open(slot: Slot, gen: nat)   // the staging file exists, partly written
    | Fill(slot: Slot, gen: nat)   // it is whole
    | Remove(slot: Slot)
    | RenameProf
    | RenameIdx
    | PassOver                     // a removal or rename that failed and was ignored

  /** The order in which a pair of staging files is removed; the program uses `ProfileFirst`. */
  datatype Order = ProfileFirst | IndexFirst

  function WithSlot(d: Disk, slot: Slot, f: Option<File>): (r: Disk) {
    if slot == ProfNew then d.(profNew := f) else d.(idxNew := f)
  }

  function Exec(d: Disk, op: Op): (r: Disk) {
    match op
    case Open(slot, gen) => WithSlot(d, slot, Some(File(gen, false)))
    case Fill(slot, gen) => WithSlot(d, slot, Some(File(gen, true)))
    case Remove(slot) => WithSlot(d, slot, None)
    case RenameProf => if d.profNew.Some? then d.(prof := d.profNew.value, profNew := None) else d
    case RenameIdx => if d.idxNew.Some? then d.(idx := d.idxNew.value, idxNew := None) else d
    case PassOver => d
  }

  function ExecAll(d: Disk, ops: seq<Op>): (r: Disk)
    decreases |ops|
  {
    if ops == [] then d else ExecAll(Exec(d, ops[0]), ops[1..])
  }

  function FirstGone(order: Order): (slot: Slot) {
    if order == ProfileFirst then ProfNew else IdxNew
  }

  function LastGone(order: Order): (slot: Slot) {
    if order == ProfileFirst then IdxNew else ProfNew
  }

  function TryRemove(slot: Slot, stuck: set<Slot>): (r: Op) {
    if slot in stuck then PassOver else Remove(slot)
  }

  /** What startup recovery does, decided by which staging files exist. */
  function RecoveryPlan(order: Order, d: Disk, stuck: set<Slot>): (r: seq<Op>) {
    match (d.profNew.Some?, d.idxNew.Some?)
    case (true, true) => [TryRemove(FirstGone(order), stuck), TryRemove(LastGone(order), stuck)]
    case (false, true) => [if IdxNew in stuck then PassOver else RenameIdx]
    case (true, false) => [TryRemove(ProfNew, stuck)]
    case (false, false) => []
  }

  /** How far a rotation gets before an operation reports an error. */
  datatype Outcome =
    | Success
    | ProfWriteFails
    | StampFails
    | IdxWriteFails(created: bool)
    | ProfRenameFails
    | IdxRenameFails

  function RotationPlan(order: Order, gen: nat, outcome: Outcome, stuck: set<Slot>): (r: seq<Op>) {
    var first, last := TryRemove(FirstGone(order), stuck), TryRemove(LastGone(order), stuck);
    match outcome
    case Success =>
      [Open(ProfNew, gen), Fill(ProfNew, gen), Open(IdxNew, gen), Fill(IdxNew, gen), RenameProf, RenameIdx]
    case ProfWriteFails => [Open(ProfNew, gen), TryRemove(ProfNew, stuck)]
    case StampFails => [Open(ProfNew, gen), Fill(ProfNew, gen)]
    case IdxWriteFails(created) =>
      [Open(ProfNew, gen), Fill(ProfNew, gen), if created then Open(IdxNew, gen) else PassOver, first, last]
    case ProfRenameFails =>
      [Open(ProfNew, gen), Fill(ProfNew, gen), Open(IdxNew, gen), Fill(IdxNew, gen), first, last]
    case IdxRenameFails => [Open(ProfNew, gen), Fill(ProfNew, gen), Open(IdxNew, gen), Fill(IdxNew, gen), RenameProf]
  }

  function GenOf(f: Option<File>): (g: nat) {
    if f.Some? then f.value.gen else 0
  }

  function Max(a: nat, b: nat): (m: nat) {
    if a < b then b else a
  }

  /** A rotation none of whose files is on the disk yet. */
  function NextGen(d: Disk): (g: nat) {
    Max(Max(d.prof.gen, d.idx.gen), Max(GenOf(d.profNew), GenOf(d.idxNew))) + 1
  }

  /** One stretch of work: a rotation or a recovery, stopped after `crashAt` operations. */
  datatype Episode =
    | Rotate(outcome: Outcome, crashAt: nat, stuck: set<Slot>)
    | Recover(crashAt: nat, stuck: set<Slot>)

  function Plan(order: Order, d: Disk, e: Episode): (r: seq<Op>) {
    match e
    case Rotate(outcome, _, stuck) => RotationPlan(order, NextGen(d), outcome, stuck)
    case Recover(_, stuck) => RecoveryPlan(order, d, stuck)
  }

  function Cut(ops: seq<Op>, crashAt: nat): (r: seq<Op>) {
    if crashAt < |ops| then ops[..crashAt] else ops
  }

  function After(order: Order, d: Disk, e: Episode): (r: Disk) {
    ExecAll(d, Cut(Plan(order, d, e), e.crashAt))
  }

  function Run(order: Order, d: Disk, run: seq<Episode>): (r: Disk)
    decreases |run|
  {
    if run == [] then d else Run(order, After(order, d, run[0]), run[1..])
  }

  function FullRecovery(order: Order, d: Disk): (r: Disk) {
    ExecAll(d, RecoveryPlan(order, d, {}))
  }

  predicate NoStaging(d: Disk) {
    d.profNew.None? && d.idxNew.None?
  }

  /** Profile and index are whole and belong to the same rotation, and nothing is staged. */
  predicate Settled(d: Disk) {
    NoStaging(d) && d.prof.complete && d.idx == d.prof
  }

  /** What two questions to the file system tell: a profile is staged, or no index is. */
  predicate MayRotate(d: Disk) {
    d.profNew.Some? || d.idxNew.None?
  }

  ghost predicate Allowed(d: Disk, e: Episode) {
    e.Rotate? ==> MayRotate(d)
  }

  ghost predicate AllowedRun(order: Order, d: Disk, run: seq<Episode>)
    decreases |run|
  {
    run == [] || (Allowed(d, run[0]) && AllowedRun(order, After(order, d, run[0]), run[1..]))
  }

  /**
   What makes rolling forward sound: a staged index without a staged profile is whole and
   belongs to the profile in place; in every other state the two files in place agree.
   */
  predicate Recoverable(d: Disk) {
    && d.prof.complete
    && if d.profNew.None? && d.idxNew.Some? then d.idxNew.value == d.prof else d.idx == d.prof
  }

  /** A staged index belongs to a later rotation than the one in place. */
  predicate StagedAhead(d: Disk) {
    d.idxNew.Some? ==> d.idxNew.value != d.idx
  }

  /** The operations an episode gets through. */
  function Done(order: Order, d: Disk, e: Episode): (ops: seq<Op>) {
    Cut(Plan(order, d, e), e.crashAt)
  }

  /** The episode removes the staged profile and leaves a staged index behind. */
  predicate StrandsIndex(order: Order, d: Disk, e: Episode) {
    var ops := Done(order, d, e);
    && Remove(ProfNew) in ops && Remove(IdxNew) !in ops
    && (d.idxNew.Some? || Open(IdxNew, NextGen(d)) in ops)
  }

  /** One complete recovery settles the disk exactly when it is recoverable. */
  lemma RecoverySettlesIff(order: Order, d: Disk)
    requires d.prof.complete
    ensures Settled(FullRecovery(order, d)) <==> Recoverable(d)
    ensures FullRecovery(order, d).prof == d.prof
  {
    Unroll(d, RecoveryPlan(order, d, {}));
  }

  /** Plans are at most six operations long. */
  lemma Unroll(d: Disk, ops: seq<Op>)
    requires |ops| <= 6
    decreases |ops|
    ensures |ops| == 0 ==> ExecAll(d, ops) == d
    ensures |ops| == 1 ==> ExecAll(d, ops) == Exec(d, ops[0])
    ensures |ops| == 2 ==> ExecAll(d, ops) == Exec(Exec(d, ops[0]), ops[1])
    ensures |ops| == 3 ==> ExecAll(d, ops) == Exec(Exec(Exec(d, ops[0]), ops[1]), ops[2])
    ensures |ops| == 4 ==> ExecAll(d, ops) == Exec(Exec(Exec(Exec(d, ops[0]), ops[1]), ops[2]), ops[3])
    ensures |ops| == 5 ==> ExecAll(d, ops) == Exec(Exec(Exec(Exec(Exec(d, ops[0]), ops[1]), ops[2]), ops[3]), ops[4])
    ensures |ops| == 6 ==>
      ExecAll(d, ops) == Exec(Exec(Exec(Exec(Exec(Exec(d, ops[0]), ops[1]), ops[2]), ops[3]), ops[4]), ops[5])
  {
    if |ops| > 0 { Unroll(Exec(d, ops[0]), ops[1..]); }
  }

  /** The disk after the first `k` operations of a rotation that stages both files. */
  function Staged(d: Disk, k: nat): (r: Disk)
    requires k <= 4
  {
    var g := NextGen(d);
    d.(profNew := if k == 0 then d.profNew else Some(File(g, k >= 2)),
       idxNew := if k < 3 then d.idxNew else Some(File(g, k >= 4)))
  }

  lemma SuccessCut(order: Order, d: Disk, crashAt: nat, stuck: set<Slot>)
    ensures var g, r := NextGen(d), After(order, d, Rotate(Success, crashAt, stuck));
            && (crashAt <= 4 ==> r == Staged(d, crashAt))
            && (crashAt == 5 ==> r == d.(prof := File(g, true), profNew := None, idxNew := Some(File(g, true))))
            && (crashAt >= 6 ==> r == Disk(File(g, true), File(g, true), None, None))
  {
    Unroll(d, Done(order, d, Rotate(Success, crashAt, stuck)));
  }

  /**
   All or nothing: stop a successful rotation of a settled disk anywhere, even inside a
   staging write, and one recovery leaves both files old or both new. They are new exactly
   when the profile had been renamed.
   */
  lemma RotationIsAllOrNothing(order: Order, d: Disk, crashAt: nat, stuck: set<Slot>)
    requires Settled(d)
    ensures var r := FullRecovery(order, After(order, d, Rotate(Success, crashAt, stuck)));
            && Settled(r)
            && r.prof == if crashAt >= 5 then File(d.prof.gen + 1, true) else d.prof
  {
    SuccessCut(order, d, crashAt, stuck);
    RecoverySettlesIff(order, After(order, d, Rotate(Success, crashAt, stuck)));
  }

  lemma MayRotateIffAgreed(d: Disk)
    requires Recoverable(d) && StagedAhead(d)
    ensures MayRotate(d) <==> d.idx == d.prof
  {
  }

  /**
   When a rotation may start over what an earlier one left: stopped anywhere and recovered,
   it settles the disk exactly when a profile is staged or no index is, which is when the two
   files in place agree.
   */
  lemma RotatingOverLeftoversIff(order: Order, d: Disk, stuck: set<Slot>)
    requires Recoverable(d) && StagedAhead(d)
    ensures (forall crashAt: nat :: Settled(FullRecovery(order, After(order, d, Rotate(Success, crashAt, stuck)))))
       <==> MayRotate(d)
  {
    MayRotateIffAgreed(d);
    if MayRotate(d) {
      forall crashAt: nat
        ensures Settled(FullRecovery(order, After(order, d, Rotate(Success, crashAt, stuck))))
      {
        OverLeftovers(order, d, crashAt, stuck);
      }
    } else {
      SuccessCut(order, d, 1, stuck);
      RecoverySettlesIff(order, After(order, d, Rotate(Success, 1, stuck)));
    }
  }

  lemma OverLeftovers(order: Order, d: Disk, crashAt: nat, stuck: set<Slot>)
    requires Recoverable(d) && d.idx == d.prof
    ensures Settled(FullRecovery(order, After(order, d, Rotate(Success, crashAt, stuck))))
  {
    SuccessCut(order, d, crashAt, stuck);
    RecoverySettlesIff(order, After(order, d, Rotate(Success, crashAt, stuck)));
  }

  // ---- Any number of crashes ------------------------------------------------------

  lemma RecoverKeepsIff(order: Order, d: Disk, crashAt: nat, stuck: set<Slot>)
    requires Recoverable(d) && StagedAhead(d)
    ensures var e := Recover(crashAt, stuck);
            && StagedAhead(After(order, d, e)) && After(order, d, e).prof == d.prof
            && (Recoverable(After(order, d, e)) <==> !StrandsIndex(order, d, e))
  {
    Unroll(d, Done(order, d, Recover(crashAt, stuck)));
  }

  /** A rotation that has not renamed the profile leaves both files in place as they were. */
  ghost predicate FilesKept(order: Order, d: Disk, e: Episode) {
    var r := After(order, d, e);
    && r.prof == d.prof && r.idx == d.idx && (r.idxNew.Some? ==> r.idxNew.value != d.idx)
    && (r.profNew.None? && r.idxNew.Some? <==> StrandsIndex(order, d, e))
  }

  lemma ProfileNotStaged(order: Order, d: Disk, e: Episode)
    requires e.Rotate? && (e.outcome.ProfWriteFails? || e.outcome.StampFails?)
    requires Recoverable(d) && StagedAhead(d) && Allowed(d, e)
    ensures FilesKept(order, d, e)
  {
    Unroll(d, Done(order, d, e));
  }

  lemma IndexNotStaged(order: Order, d: Disk, e: Episode)
    requires e.Rotate? && e.outcome.IdxWriteFails?
    requires Recoverable(d) && StagedAhead(d) && Allowed(d, e)
    ensures FilesKept(order, d, e)
  {
    Unroll(d, Done(order, d, e));
  }

  lemma ProfileNotRenamed(order: Order, d: Disk, e: Episode)
    requires e.Rotate? && e.outcome.ProfRenameFails?
    requires Recoverable(d) && StagedAhead(d) && Allowed(d, e)
    ensures FilesKept(order, d, e)
  {
    Unroll(d, Done(order, d, e));
  }

  lemma ThroughRename(order: Order, d: Disk, e: Episode)
    requires e.Rotate? && (e.outcome.Success? || e.outcome.IdxRenameFails?)
    requires Recoverable(d) && StagedAhead(d) && Allowed(d, e)
    ensures var r := After(order, d, e); r.prof.complete && StagedAhead(r) && Recoverable(r)
    ensures !StrandsIndex(order, d, e)
  {
    Unroll(d, Done(order, d, e));
  }

  lemma RotateKeepsIff(order: Order, d: Disk, e: Episode)
    requires e.Rotate? && Recoverable(d) && StagedAhead(d) && MayRotate(d)
    ensures After(order, d, e).prof.complete && StagedAhead(After(order, d, e))
    ensures Recoverable(After(order, d, e)) <==> !StrandsIndex(order, d, e)
  {
    MayRotateIffAgreed(d);
    match e.outcome
    case ProfWriteFails => ProfileNotStaged(order, d, e);
    case StampFails => ProfileNotStaged(order, d, e);
    case IdxWriteFails(_) => IndexNotStaged(order, d, e);
    case ProfRenameFails => ProfileNotRenamed(order, d, e);
    case _ => ThroughRename(order, d, e);
  }

  /**
   Every rotation and every recovery, stopped anywhere, keeps the disk recoverable, except
   one that removes the staged profile and leaves the staged index.
   */
  lemma EpisodeKeepsIff(order: Order, d: Disk, e: Episode)
    requires Recoverable(d) && StagedAhead(d) && Allowed(d, e)
    ensures After(order, d, e).prof.complete && StagedAhead(After(order, d, e))
    ensures Recoverable(After(order, d, e)) <==> !StrandsIndex(order, d, e)
  {
    match e
    case Rotate(_, _, _) => RotateKeepsIff(order, d, e);
    case Recover(crashAt, stuck) => RecoverKeepsIff(order, d, crashAt, stuck);
  }

  predicate StrandsInRun(order: Order, d: Disk, run: seq<Episode>)
    decreases |run|
  {
    run != [] && (StrandsIndex(order, d, run[0]) || StrandsInRun(order, After(order, d, run[0]), run[1..]))
  }

  /** In either order, a run in which no episode strands the index leaves a disk that one recovery settles. */
  lemma {:induction false} SafeUnlessStranded(order: Order, d: Disk, run: seq<Episode>)
    requires Recoverable(d) && StagedAhead(d) && AllowedRun(order, d, run) && !StrandsInRun(order, d, run)
    ensures Settled(FullRecovery(order, Run(order, d, run)))
    decreases |run|
  {
    if run == [] {
      RecoverySettlesIff(order, d);
    } else {
      EpisodeKeepsIff(order, d, run[0]);
      SafeUnlessStranded(order, After(order, d, run[0]), run[1..]);
    }
  }

  /**
   With the index removed first, an episode strands it only if the index is stuck, or if the
   staging of the profile fails on a disk where an earlier index is still staged.
   */
  lemma IndexFirstStrandsIff(d: Disk, e: Episode)
    requires Allowed(d, e)
    ensures StrandsIndex(IndexFirst, d, e)
       <==> && ProfNew !in e.stuck && e.crashAt >= 2
            && match e
               case Recover(_, stuck) => d.profNew.Some? && d.idxNew.Some? && IdxNew in stuck
               case Rotate(outcome, crashAt, stuck) =>
                 match outcome
                 case ProfWriteFails => d.idxNew.Some?
                 case IdxWriteFails(created) => crashAt >= 5 && IdxNew in stuck && (created || d.idxNew.Some?)
                 case ProfRenameFails => crashAt >= 6 && IdxNew in stuck
                 case _ => false
  {
    var ops := Plan(IndexFirst, d, e);
    assert forall op :: op in Done(IndexFirst, d, e) ==> exists i :: 0 <= i < |ops| && i < e.crashAt && ops[i] == op;
    if e.crashAt >= |ops| { assert Done(IndexFirst, d, e) == ops; }
  }

  /** Nothing is stuck, and a rotation starts with no index staged. */
  predicate Clear(d: Disk, e: Episode) {
    IdxNew !in e.stuck && (e.Rotate? ==> d.idxNew.None?)
  }

  ghost predicate ClearRun(order: Order, d: Disk, run: seq<Episode>)
    decreases |run|
  {
    run == [] || (Clear(d, run[0]) && ClearRun(order, After(order, d, run[0]), run[1..]))
  }

  /** With the index removed first, any number of crashes leaves a disk one recovery settles. */
  lemma {:induction false} IndexFirstIsSafe(d: Disk, run: seq<Episode>)
    requires Recoverable(d) && StagedAhead(d) && ClearRun(IndexFirst, d, run)
    ensures Recoverable(Run(IndexFirst, d, run))
    ensures Settled(FullRecovery(IndexFirst, Run(IndexFirst, d, run)))
    decreases |run|
  {
    if run == [] {
      RecoverySettlesIff(IndexFirst, d);
    } else {
      IndexFirstStrandsIff(d, run[0]);
      EpisodeKeepsIff(IndexFirst, d, run[0]);
      IndexFirstIsSafe(After(IndexFirst, d, run[0]), run[1..]);
    }
  }

  /**
   The run that breaks the program's order, from any settled disk: crash with both files
   staged, crash inside the recovery's removals, recover. The index is new, the profile old.
   */
  lemma ProfileFirstBreaks(d: Disk)
    requires Settled(d)
    ensures var run := [Rotate(Success, 4, {}), Recover(1, {}), Recover(1, {})];
            && AllowedRun(ProfileFirst, d, run)
            && Run(ProfileFirst, d, run) == d.(idx := File(d.prof.gen + 1, true))
  {
    var run := [Rotate(Success, 4, {}), Recover(1, {}), Recover(1, {})];
    SuccessCut(ProfileFirst, d, 4, {});
    var d1 := After(ProfileFirst, d, run[0]);
    assert d1 == Staged(d, 4);
    var d2 := After(ProfileFirst, d1, run[1]);
    Unroll(d1, Done(ProfileFirst, d1, run[1]));
    var d3 := After(ProfileFirst, d2, run[2]);
    Unroll(d2, Done(ProfileFirst, d2, run[2]));
    assert d3 == d.(idx := File(d.prof.gen + 1, true));
    assert run[1..] == [Recover(1, {}), Recover(1, {})];
    assert run[1..][1..] == [Recover(1, {})] && run[1..][1..][1..] == [];
    assert Run(ProfileFirst, d2, [Recover(1, {})]) == Run(ProfileFirst, d3, []) == d3;
    assert Run(ProfileFirst, d1, run[1..]) == Run(ProfileFirst, d2, [Recover(1, {})]);
    assert AllowedRun(ProfileFirst, d2, [Recover(1, {})]);
    assert AllowedRun(ProfileFirst, d1, run[1..]);
  }

  /** The same window after a failed staging write installs a partial index. */
  lemma ProfileFirstInstallsPartialIndex(d: Disk)
    requires Settled(d)
    ensures var broken := After(ProfileFirst, d, Rotate(IdxWriteFails(true), 4, {}));
            !FullRecovery(ProfileFirst, broken).idx.complete
  {
    var e := Rotate(IdxWriteFails(true), 4, {});
    Unroll(d, Done(ProfileFirst, d, e));
    var broken := After(ProfileFirst, d, e);
    Unroll(broken, RecoveryPlan(ProfileFirst, broken, {}));
  }

  /**
   The leftover that fails: after the index rename failed, a retry without recovery that
   crashes while staging loses the roll-forward, whatever the order.
   */
  lemma RotatingOverLeftoversBreaks(order: Order, d: Disk)
    requires Settled(d)
    ensures var left := After(order, d, Rotate(IdxRenameFails, 5, {}));
            && Recoverable(left) && !Allowed(left, Rotate(Success, 1, {}))
            && !Recoverable(After(order, left, Rotate(Success, 1, {})))
  {
    var e := Rotate(IdxRenameFails, 5, {});
    Unroll(d, Done(order, d, e));
    Unroll(After(order, d, e), Done(order, After(order, d, e), Rotate(Success, 1, {})));
  }

  // ---- The program -------------------------------------------------------------

  class Files {
    var prof: File
    var idx: File
    var profNew: Option<File>
    var idxNew: Option<File>

    function View(): (d: Disk)
      reads this
    {
      Disk(prof, idx, profNew, idxNew)
    }

    constructor (gen: nat)
      ensures View() == Disk(File(gen, true), File(gen, true), None, None)
    {
      prof, idx := File(gen, true), File(gen, true);
      profNew, idxNew := None, None;
    }

    method RecoverInterruptedRotation(stuck: set<Slot>)
      modifies this
      ensures View() == ExecAll(old(View()), RecoveryPlan(ProfileFirst, old(View()), stuck))
    {
      Unroll(View(), RecoveryPlan(ProfileFirst, View(), stuck));
      if profNew.Some? && idxNew.Some? {
        RemoveStaged(ProfNew, stuck);
        RemoveStaged(IdxNew, stuck);
      } else if profNew.None? && idxNew.Some? {
        if IdxNew !in stuck { idx, idxNew := idxNew.value, None; }
      } else if profNew.Some? && idxNew.None? {
        RemoveStaged(ProfNew, stuck);
      }
    }

    /** A removal whose failure is ignored. */
    method RemoveStaged(slot: Slot, stuck: set<Slot>)
      modifies this`profNew, this`idxNew
      ensures View() == Exec(old(View()), TryRemove(slot, stuck))
    {
      if slot !in stuck {
        if slot == ProfNew { profNew := None; } else { idxNew := None; }
      }
    }

    /** `outcome` says which of its file operations reports an error. */
    method ApplyRotation(outcome: Outcome, stuck: set<Slot>) returns (ok: bool)
      modifies this
      ensures View() == ExecAll(old(View()), RotationPlan(ProfileFirst, NextGen(old(View())), outcome, stuck))
      ensures ok <==> outcome.Success?
    {
      var gen := NextGen(View());
      Unroll(View(), RotationPlan(ProfileFirst, gen, outcome, stuck));

      profNew := Some(File(gen, false));
      if outcome.ProfWriteFails? {
        RemoveStaged(ProfNew, stuck);
        return false;
      }
      profNew := Some(File(gen, true));

      if outcome.StampFails? { return false; }
      if outcome.IdxWriteFails? {
        if outcome.created { idxNew := Some(File(gen, false)); }
        RemoveStaged(ProfNew, stuck);
        RemoveStaged(IdxNew, stuck);
        return false;
      }
      idxNew := Some(File(gen, true));

      if outcome.ProfRenameFails? {
        RemoveStaged(ProfNew, stuck);
        RemoveStaged(IdxNew, stuck);
        return false;
      }
      prof, profNew := profNew.value, None;

      if outcome.IdxRenameFails? { return false; }
      idx, idxNew := idxNew.value, None;
      return true;
    }
  }
}
