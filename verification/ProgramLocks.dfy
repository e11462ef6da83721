/** Lineup saves, device saves and program removals as overlapping transactions with row locks. */
module ProgramLocks {
  import opened Wrappers
  import opened ProgramRefs

  type TxId = int

  /** What an open transaction is about to write. */
  datatype Work =
    | SavingLineup(group: GroupId, lineup: Lineup)
    | SavingDevice(device: DeviceId, row: Device)
    | Removing(program: ProgramId, counted: bool)

  /** shares are the program rows read FOR KEY SHARE; a removal holds its row FOR UPDATE. */
  datatype Tx = Tx(work: Work, shares: set<ProgramId>)

  datatype World = World(programs: Programs, lineups: Lineups, devices: Devices, open: map<TxId, Tx>)

  const INITIAL := World(map[], map[], map[], map[])

  /** A step that the database would make wait, or that the service refuses, is not enabled. */
  datatype Step =
    | CreateProgram(id: ProgramId, program: Program)
    | CreateGroup(group: GroupId, blockId: BlockId)
    | DropGroup(group: GroupId)
    | CreateDevice(device: DeviceId, group: GroupId)
    | CheckLineup(tx: TxId, group: GroupId, input: LineupInput, newIds: seq<BlockId>)
    | CheckDevice(tx: TxId, device: DeviceId, group: GroupId, overrides: Overrides)
    | LockProgram(tx: TxId, id: ProgramId)
    | CountUsage(tx: TxId)
    | Commit(tx: TxId)
    | Abort(tx: TxId)

  predicate LockedForUpdate(w: World, id: ProgramId) {
    exists tx :: tx in w.open && w.open[tx].work.Removing? && w.open[tx].work.program == id
  }

  predicate SavingGroup(w: World, group: GroupId) {
    exists tx :: tx in w.open && w.open[tx].work.SavingLineup? && w.open[tx].work.group == group
  }

  function LineupPrograms(lineup: Lineup): set<ProgramId> {
    BlockPrograms(lineup.blocks) + InfoBarPrograms(lineup.infoBar)
  }

  function OverridePrograms(overrides: Overrides): set<ProgramId> { InfoBarPrograms(overrides.infoBar.GetOr([])) }

  function SharesOf(input: LineupInput, newIds: seq<BlockId>): set<ProgramId>
    requires |newIds| == |input.blocks|
  {
    LineupPrograms(Saved(input.version, input, newIds))
  }

  predicate Enabled(w: World, step: Step) {
    match step
    case CreateProgram(id, _) => id !in w.programs
    case CreateGroup(group, _) => group !in w.lineups
    case DropGroup(group) => !SavingGroup(w, group)
    case CreateDevice(device, _) => device !in w.devices
    case CheckLineup(tx, group, input, newIds) =>
      && tx !in w.open && |newIds| == |input.blocks|
      && group in w.lineups && !SavingGroup(w, group) && w.lineups[group].version == input.version
      && IdsFit(input.blocks, BlockIds(w.lineups[group].blocks)) && AllGood(w.programs, References(input))
      && forall id :: id in SharesOf(input, newIds) ==> !LockedForUpdate(w, id)
    case CheckDevice(tx, device, group, overrides) =>
      && tx !in w.open && device in w.devices
      && AllGood(w.programs, InfoBarReferences(overrides.infoBar.GetOr([])))
      && forall id :: id in OverridePrograms(overrides) ==> !LockedForUpdate(w, id)
    case LockProgram(tx, id) =>
      && tx !in w.open && id in w.programs && !LockedForUpdate(w, id)
      && forall other :: other in w.open ==> id !in w.open[other].shares
    case CountUsage(tx) =>
      && tx in w.open && w.open[tx].work.Removing?
      && UsingGroups(w.lineups, w.open[tx].work.program) == {} && UsingDevices(w.devices, w.open[tx].work.program) == {}
    case Commit(tx) => tx in w.open && (w.open[tx].work.Removing? ==> w.open[tx].work.counted)
    case Abort(tx) => tx in w.open
  }

  function Committed(w: World, work: Work): World {
    match work
    case SavingLineup(group, lineup) => w.(lineups := w.lineups[group := lineup])
    case SavingDevice(device, row) => w.(devices := w.devices[device := row])
    case Removing(program, _) => w.(programs := w.programs - {program})
  }

  function Next(w: World, step: Step): World
    requires Enabled(w, step)
  {
    match step
    case CreateProgram(id, program) => w.(programs := w.programs[id := program])
    case CreateGroup(group, blockId) => w.(lineups := w.lineups[group := DefaultLineup(blockId)])
    case DropGroup(group) => w.(lineups := w.lineups - {group})
    case CreateDevice(device, group) => w.(devices := w.devices[device := Device(group, NO_OVERRIDES)])
    case CheckLineup(tx, group, input, newIds) =>
      var lineup := Saved(input.version, input, newIds);
      w.(open := w.open[tx := Tx(SavingLineup(group, lineup), SharesOf(input, newIds))])
    case CheckDevice(tx, device, group, overrides) =>
      var row := Device(group, Pruned(overrides, BlockIdsOf(w.lineups, group)));
      w.(open := w.open[tx := Tx(SavingDevice(device, row), OverridePrograms(overrides))])
    case LockProgram(tx, id) => w.(open := w.open[tx := Tx(Removing(id, false), {})])
    case CountUsage(tx) => w.(open := w.open[tx := w.open[tx].(work := w.open[tx].work.(counted := true))])
    case Commit(tx) => Committed(w, w.open[tx].work).(open := w.open - {tx})
    case Abort(tx) => w.(open := w.open - {tx})
  }

  // ---------------------------------------------------------------- the invariant

  predicate LineupFits(programs: Programs, lineup: Lineup) {
    BlocksFit(programs, lineup.blocks) && InfoBarFits(programs, lineup.infoBar)
  }

  predicate OverridesFit(programs: Programs, overrides: Overrides) {
    InfoBarFits(programs, overrides.infoBar.GetOr([]))
  }

  /** Every committed reference names an existing program that fits its slot. */
  ghost predicate ReferencesHold(w: World) {
    && (forall group :: group in w.lineups ==> LineupFits(w.programs, w.lineups[group]))
    && (forall device :: device in w.devices ==> OverridesFit(w.programs, w.devices[device].overrides))
  }

  /** What an open save is about to write fits, and its programs are locked against removal. */
  ghost predicate SaveFits(w: World, tx: Tx) {
    match tx.work
    case SavingLineup(_, lineup) => LineupFits(w.programs, lineup) && LineupPrograms(lineup) <= tx.shares
    case SavingDevice(_, row) => OverridesFit(w.programs, row.overrides) && OverridePrograms(row.overrides) <= tx.shares
    case Removing(_, _) => true
  }

  predicate Unused(w: World, id: ProgramId) {
    && (forall group :: group in w.lineups ==> id !in LineupPrograms(w.lineups[group]))
    && (forall device :: device in w.devices ==> id !in OverridePrograms(w.devices[device].overrides))
  }

  ghost predicate LocksHold(w: World) {
    && (forall tx :: tx in w.open ==> SaveFits(w, w.open[tx]))
    && (forall a, b :: a in w.open && b in w.open && w.open[a].work.Removing? ==>
          && w.open[a].work.program !in w.open[b].shares
          && (w.open[b].work.Removing? && w.open[b].work.program == w.open[a].work.program ==> a == b))
    && (forall tx :: tx in w.open && w.open[tx].work.Removing? && w.open[tx].work.counted ==>
        Unused(w, w.open[tx].work.program))
  }

  ghost predicate Inv(w: World) { ReferencesHold(w) && LocksHold(w) }

  lemma FitsWithout(programs: Programs, lineup: Lineup, id: ProgramId)
    requires LineupFits(programs, lineup) && id !in LineupPrograms(lineup)
    ensures LineupFits(programs - {id}, lineup)
  {
    forall i | 0 <= i < |lineup.blocks| && lineup.blocks[i].program.Some?
      ensures lineup.blocks[i].program.value in programs - {id}
    {
      assert lineup.blocks[i].program.value in BlockPrograms(lineup.blocks);
    }
    InfoBarFitsWithout(programs, lineup.infoBar, id);
  }

  lemma InfoBarFitsWithout(programs: Programs, infoBar: seq<Entry>, id: ProgramId)
    requires InfoBarFits(programs, infoBar) && id !in InfoBarPrograms(infoBar)
    ensures InfoBarFits(programs - {id}, infoBar)
  {
    forall i | 0 <= i < |infoBar|
      ensures infoBar[i].program in programs - {id}
    {
      assert infoBar[i].program in InfoBarPrograms(infoBar);
    }
  }

  lemma InfoBarReferencesHold(programs: Programs, infoBar: seq<Entry>)
    ensures AllGood(programs, InfoBarReferences(infoBar)) <==> InfoBarFits(programs, infoBar)
  {
    var references := InfoBarReferences(infoBar);
    assert forall i :: 0 <= i < |infoBar| ==>
      references[i] == Reference(InfoBarPath(i), infoBar[i].program, Some(infoBar[i].item));
  }

  lemma NobodyUses(w: World, id: ProgramId)
    ensures UsingGroups(w.lineups, id) == {} && UsingDevices(w.devices, id) == {} <==> Unused(w, id)
  {
    hide BlockPrograms, InfoBarPrograms;
    forall group
      ensures group in UsingGroups(w.lineups, id) <==> group in w.lineups && id in LineupPrograms(w.lineups[group])
    {
    }
    forall device
      ensures device in UsingDevices(w.devices, id)
          <==> device in w.devices && id in OverridePrograms(w.devices[device].overrides)
    {
    }
    hide UsingGroups, UsingDevices, LineupPrograms, OverridePrograms;
    if Unused(w, id) {
      assert forall group :: group !in UsingGroups(w.lineups, id);
      assert forall device :: device !in UsingDevices(w.devices, id);
    }
  }

  lemma RemovalKeepsInv(w: World, tx: TxId)
    requires Inv(w) && Enabled(w, Commit(tx)) && w.open[tx].work.Removing?
    ensures Inv(Next(w, Commit(tx)))
  {
    var id := w.open[tx].work.program;
    var w1 := Next(w, Commit(tx));
    hide BlockPrograms, InfoBarPrograms, BlocksFit, InfoBarFits;
    assert Unused(w, id);
    forall group | group in w.lineups
      ensures LineupFits(w1.programs, w.lineups[group])
    {
      FitsWithout(w.programs, w.lineups[group], id);
    }
    forall device | device in w.devices
      ensures OverridesFit(w1.programs, w.devices[device].overrides)
    {
      InfoBarFitsWithout(w.programs, w.devices[device].overrides.infoBar.GetOr([]), id);
    }
    forall other | other in w1.open
      ensures SaveFits(w1, w1.open[other])
    {
      assert SaveFits(w, w.open[other]) && id !in w.open[other].shares;
      match w.open[other].work
      case SavingLineup(_, lineup) => FitsWithout(w.programs, lineup, id);
      case SavingDevice(_, row) => InfoBarFitsWithout(w.programs, row.overrides.infoBar.GetOr([]), id);
      case Removing(_, _) =>
    }
  }

  lemma SaveKeepsInv(w: World, tx: TxId)
    requires Inv(w) && Enabled(w, Commit(tx)) && !w.open[tx].work.Removing?
    ensures Inv(Next(w, Commit(tx)))
  {
    hide BlockPrograms, InfoBarPrograms, BlocksFit, InfoBarFits;
    assert SaveFits(w, w.open[tx]);
    var w1 := Next(w, Commit(tx));
    assert ReferencesHold(w1);
    assert forall other :: other in w1.open ==> SaveFits(w, w.open[other]) && SaveFits(w1, w1.open[other]);
    forall other | other in w1.open && w1.open[other].work.Removing? && w1.open[other].work.counted
      ensures Unused(w1, w1.open[other].work.program)
    {
      assert Unused(w, w.open[other].work.program);
      assert w.open[other].work.program !in w.open[tx].shares;
    }
  }

  /** A save that fits and whose programs nobody is removing may open. */
  lemma OpeningSaveKeepsInv(w: World, tx: TxId, save: Tx)
    requires Inv(w) && tx !in w.open && !save.work.Removing? && SaveFits(w, save)
    requires forall id :: id in save.shares ==> !LockedForUpdate(w, id)
    ensures Inv(w.(open := w.open[tx := save]))
  {
    hide LineupFits, OverridesFit, LineupPrograms, OverridePrograms;
    var w1 := w.(open := w.open[tx := save]);
    forall other | other in w.open && w.open[other].work.Removing?
      ensures w.open[other].work.program !in save.shares
    {
      assert LockedForUpdate(w, w.open[other].work.program);
    }
    assert forall other :: other in w1.open ==> SaveFits(w1, w1.open[other]) by {
      assert forall other :: other in w.open ==> SaveFits(w, w.open[other]);
    }
    assert forall id :: Unused(w, id) ==> Unused(w1, id);
  }

  lemma CheckKeepsInv(w: World, step: Step)
    requires Inv(w) && Enabled(w, step) && (step.CheckLineup? || step.CheckDevice?)
    ensures Inv(Next(w, step))
  {
    hide Inv, BlockPrograms, InfoBarPrograms, BlocksFit, InfoBarFits, BlockIds, LockedForUpdate;
    hide AllGood, References, InfoBarReferences, IdsFit;
    if step.CheckLineup? {
      SavedFits(w.programs, step.input.version, step.input, step.newIds);
      hide Saved, SavingGroup;
      OpeningSaveKeepsInv(w, step.tx, Next(w, step).open[step.tx]);
    } else {
      InfoBarReferencesHold(w.programs, step.overrides.infoBar.GetOr([]));
      OpeningSaveKeepsInv(w, step.tx, Next(w, step).open[step.tx]);
    }
  }

  lemma DefaultFits(programs: Programs, blockId: BlockId)
    ensures LineupFits(programs, DefaultLineup(blockId)) && LineupPrograms(DefaultLineup(blockId)) == {}
  {
  }

  /** A new row that names no program. */
  lemma CreationKeepsInv(w: World, step: Step)
    requires Inv(w) && Enabled(w, step) && (step.CreateGroup? || step.DropGroup? || step.CreateDevice?)
    ensures Inv(Next(w, step))
  {
    var w1 := Next(w, step);
    if step.CreateGroup? { DefaultFits(w.programs, step.blockId); }
    assert OverridePrograms(NO_OVERRIDES) == {} && OverridesFit(w.programs, NO_OVERRIDES);
    hide DefaultLineup;
    hide LineupFits, OverridesFit, LineupPrograms, OverridePrograms;
    assert forall other :: other in w1.open ==> SaveFits(w1, w1.open[other]) by {
      assert forall other :: other in w.open ==> SaveFits(w, w.open[other]);
    }
    assert forall id :: Unused(w, id) ==> Unused(w1, id);
  }

  lemma NewProgramKeepsInv(w: World, id: ProgramId, program: Program)
    requires Inv(w) && id !in w.programs
    ensures Inv(w.(programs := w.programs[id := program]))
  {
    hide LineupPrograms, OverridePrograms;
    var w1 := w.(programs := w.programs[id := program]);
    assert forall lineup :: LineupFits(w.programs, lineup) ==> LineupFits(w1.programs, lineup);
    assert forall overrides :: OverridesFit(w.programs, overrides) ==> OverridesFit(w1.programs, overrides);
    hide LineupFits, OverridesFit;
    assert forall other :: other in w1.open ==> SaveFits(w1, w1.open[other]) by {
      assert forall other :: other in w.open ==> SaveFits(w, w.open[other]);
    }
    assert forall other :: Unused(w, other) ==> Unused(w1, other);
  }

  lemma LockKeepsInv(w: World, tx: TxId, id: ProgramId)
    requires Inv(w) && Enabled(w, LockProgram(tx, id))
    ensures Inv(Next(w, LockProgram(tx, id)))
  {
    hide LineupFits, OverridesFit, LineupPrograms, OverridePrograms;
    var w1 := Next(w, LockProgram(tx, id));
    assert forall other :: other in w1.open ==> SaveFits(w1, w1.open[other]) by {
      assert forall other :: other in w.open ==> SaveFits(w, w.open[other]);
    }
    assert forall other :: Unused(w, other) ==> Unused(w1, other);
  }

  lemma CountKeepsInv(w: World, tx: TxId)
    requires Inv(w) && Enabled(w, CountUsage(tx))
    ensures Inv(Next(w, CountUsage(tx)))
  {
    NobodyUses(w, w.open[tx].work.program);
    hide LineupFits, OverridesFit, LineupPrograms, OverridePrograms, UsingGroups, UsingDevices;
    var w1 := Next(w, CountUsage(tx));
    assert forall other :: other in w1.open ==> SaveFits(w1, w1.open[other]) by {
      assert forall other :: other in w.open ==> SaveFits(w, w.open[other]);
    }
    assert forall other :: Unused(w, other) ==> Unused(w1, other);
  }

  lemma AbortKeepsInv(w: World, tx: TxId)
    requires Inv(w)
    ensures Inv(w.(open := w.open - {tx}))
  {
    hide LineupFits, OverridesFit, LineupPrograms, OverridePrograms;
    var w1 := w.(open := w.open - {tx});
    assert forall other :: other in w1.open ==> SaveFits(w1, w1.open[other]) by {
      assert forall other :: other in w.open ==> SaveFits(w, w.open[other]);
    }
    assert forall other :: Unused(w, other) ==> Unused(w1, other);
  }

  lemma StepKeepsInv(w: World, step: Step)
    requires Inv(w) && Enabled(w, step)
    ensures Inv(Next(w, step))
  {
    hide Inv;
    match step
    case CheckLineup(_, _, _, _) => CheckKeepsInv(w, step);
    case CheckDevice(_, _, _, _) => CheckKeepsInv(w, step);
    case Commit(tx) => if w.open[tx].work.Removing? { RemovalKeepsInv(w, tx); } else { SaveKeepsInv(w, tx); }
    case LockProgram(tx, id) => LockKeepsInv(w, tx, id);
    case CountUsage(tx) => CountKeepsInv(w, tx);
    case Abort(tx) => AbortKeepsInv(w, tx);
    case CreateProgram(id, program) => NewProgramKeepsInv(w, id, program);
    case _ => CreationKeepsInv(w, step);
  }

  // ---------------------------------------------------------------- runs

  ghost predicate ValidRun(steps: seq<Step>)
    decreases |steps|, 0
  {
    steps == [] ||
    var n := |steps| - 1;
    ValidRun(steps[..n]) && Enabled(Reached(steps[..n]), steps[n])
  }

  ghost function Reached(steps: seq<Step>): World
    requires ValidRun(steps)
    decreases |steps|, 1
  {
    if steps == [] then INITIAL else Next(Reached(steps[..|steps| - 1]), steps[|steps| - 1])
  }

  lemma {:induction false} RunKeepsInv(steps: seq<Step>)
    requires ValidRun(steps)
    ensures Inv(Reached(steps))
  {
    hide Next, Enabled;
    if steps != [] {
      hide Inv;
      RunKeepsInv(steps[..|steps| - 1]);
      StepKeepsInv(Reached(steps[..|steps| - 1]), steps[|steps| - 1]);
    }
  }

  /** In every committed state each program that a block, an info bar or a device override names
      exists, and each info bar entry names a program of its slot's kind. */
  lemma CommittedReferencesHold(steps: seq<Step>)
    requires ValidRun(steps)
    ensures var w := Reached(steps);
            && (forall group :: group in w.lineups ==> BlocksFit(w.programs, w.lineups[group].blocks))
            && (forall group :: group in w.lineups ==> InfoBarFits(w.programs, w.lineups[group].infoBar))
            && (forall device :: device in w.devices && w.devices[device].overrides.infoBar.Some? ==>
                  InfoBarFits(w.programs, w.devices[device].overrides.infoBar.value))
  {
    RunKeepsInv(steps);
    hide LocksHold;
    var w := Reached(steps);
    forall device | device in w.devices && w.devices[device].overrides.infoBar.Some?
      ensures InfoBarFits(w.programs, w.devices[device].overrides.infoBar.value)
    {
      assert OverridesFit(w.programs, w.devices[device].overrides);
    }
    forall group | group in w.lineups
      ensures LineupFits(w.programs, w.lineups[group])
    {
    }
  }

  /** So what a device follows, its group's lineup with its own overrides, never names a missing program. */
  lemma FollowedLineupFits(steps: seq<Step>, device: DeviceId)
    requires ValidRun(steps) && device in Reached(steps).devices
    requires Reached(steps).devices[device].programGroup in Reached(steps).lineups
    ensures var w := Reached(steps);
            LineupFits(w.programs, Resolved(w.lineups[w.devices[device].programGroup], w.devices[device].overrides))
  {
    RunKeepsInv(steps);
    hide LocksHold;
    var w := Reached(steps);
    assert OverridesFit(w.programs, w.devices[device].overrides);
    assert LineupFits(w.programs, w.lineups[w.devices[device].programGroup]);
    hide ReferencesHold;
  }

  /** A removal that commits removes a program that nothing uses, even if saves overlap with it. */
  lemma RemovedProgramIsUnused(steps: seq<Step>, tx: TxId)
    requires ValidRun(steps) && Enabled(Reached(steps), Commit(tx)) && Reached(steps).open[tx].work.Removing?
    ensures var w := Reached(steps);
            var id := w.open[tx].work.program;
            && UsingGroups(w.lineups, id) == {} && UsingDevices(w.devices, id) == {}
            && forall other :: other in w.open && other != tx ==>
                 match w.open[other].work
                 case SavingLineup(_, lineup) => id !in LineupPrograms(lineup)
                 case SavingDevice(_, row) => id !in OverridePrograms(row.overrides)
                 case Removing(program, _) => program != id
  {
    RunKeepsInv(steps);
    var w := Reached(steps);
    NobodyUses(w, w.open[tx].work.program);
    hide LineupFits, OverridesFit, BlockPrograms, InfoBarPrograms, UsingGroups, UsingDevices, ReferencesHold;
    forall other | other in w.open && other != tx
      ensures match w.open[other].work
              case SavingLineup(_, lineup) => w.open[tx].work.program !in LineupPrograms(lineup)
              case SavingDevice(_, row) => w.open[tx].work.program !in OverridePrograms(row.overrides)
              case Removing(program, _) => program != w.open[tx].work.program
    {
      assert SaveFits(w, w.open[other]);
    }
  }

  // ---------------------------------------------------------------- no save is lost

  /** The row of a group that is being saved is locked: it is there, as the save read it, and no other
      save of the group is open. */
  ghost predicate GroupsHold(w: World) {
    && (forall tx :: tx in w.open && w.open[tx].work.SavingLineup? ==>
          var SavingLineup(group, lineup) := w.open[tx].work;
          group in w.lineups && lineup.version == w.lineups[group].version + 1)
    && (forall a, b ::
          (a in w.open && b in w.open && w.open[a].work.SavingLineup? && w.open[b].work.SavingLineup?
           && w.open[a].work.group == w.open[b].work.group)
          ==> a == b)
  }

  /** No new save is open, and the rows of the open ones are as they were. */
  ghost predicate GroupsKept(w: World, w1: World) {
    forall tx :: tx in w1.open && w1.open[tx].work.SavingLineup? ==>
      && tx in w.open && w1.open[tx].work == w.open[tx].work
      && (w1.open[tx].work.group in w.lineups ==>
            && w1.open[tx].work.group in w1.lineups
            && w1.lineups[w1.open[tx].work.group] == w.lineups[w1.open[tx].work.group])
  }

  lemma GroupsCarryOver(w: World, w1: World)
    requires GroupsHold(w) && GroupsKept(w, w1)
    ensures GroupsHold(w1)
  {
  }

  lemma StepKeepsGroups(w: World, step: Step)
    requires GroupsHold(w) && Enabled(w, step)
    ensures GroupsHold(Next(w, step))
  {
    hide IdsFit, AllGood, SharesOf, OverridePrograms, UsingGroups, UsingDevices, Pruned, LockedForUpdate, DefaultLineup;
    match step
    case CheckLineup(tx, group, input, newIds) =>
      var lineup := Saved(input.version, input, newIds);
      assert lineup.version == input.version + 1;
      hide Saved, GroupsHold;
      LockingKeepsGroups(w, tx, Tx(SavingLineup(group, lineup), SharesOf(input, newIds)));
    case Commit(tx) =>
      assert GroupsKept(w, Next(w, step));
      hide GroupsHold;
      GroupsCarryOver(w, Next(w, step));
    case _ =>
      hide GroupsHold, BlockIdsOf;
      assert GroupsKept(w, Next(w, step));
      GroupsCarryOver(w, Next(w, step));
  }

  lemma LockingKeepsGroups(w: World, tx: TxId, save: Tx)
    requires GroupsHold(w) && tx !in w.open && save.work.SavingLineup? && !SavingGroup(w, save.work.group)
    requires save.work.group in w.lineups && save.work.lineup.version == w.lineups[save.work.group].version + 1
    ensures GroupsHold(w.(open := w.open[tx := save]))
  {
  }

  lemma {:induction false} RunKeepsGroups(steps: seq<Step>)
    requires ValidRun(steps)
    ensures GroupsHold(Reached(steps))
  {
    hide Next, Enabled;
    if steps != [] {
      hide GroupsHold;
      RunKeepsGroups(steps[..|steps| - 1]);
      StepKeepsGroups(Reached(steps[..|steps| - 1]), steps[|steps| - 1]);
    }
  }

  /** The transaction is open and the group's row is as it was when it was locked. */
  ghost predicate Saving(w: World, tx: TxId, group: GroupId, was: Lineup, lineup: Lineup) {
    && tx in w.open && w.open[tx].work == SavingLineup(group, lineup)
    && group in w.lineups && w.lineups[group] == was
  }

  lemma StepKeepsSaving(w: World, step: Step, tx: TxId, group: GroupId, was: Lineup, lineup: Lineup)
    requires GroupsHold(w) && Enabled(w, step) && step != Commit(tx) && step != Abort(tx)
    requires Saving(w, tx, group, was, lineup)
    ensures Saving(Next(w, step), tx, group, was, lineup)
  {
    hide IdsFit, AllGood, SharesOf, OverridePrograms, UsingGroups, UsingDevices, Pruned, LockedForUpdate, DefaultLineup;
  }

  lemma {:induction false} SavingLasts(steps: seq<Step>, more: seq<Step>, tx: TxId, group: GroupId,
                                     was: Lineup, lineup: Lineup)
    requires ValidRun(steps) && ValidRun(steps + more) && Saving(Reached(steps), tx, group, was, lineup)
    requires Commit(tx) !in more && Abort(tx) !in more
    ensures Saving(Reached(steps + more), tx, group, was, lineup)
    decreases |more|
  {
    hide Next, Enabled, Saving;
    if more == [] {
      assert steps + more == steps;
    } else {
      var n := |more| - 1;
      assert (steps + more)[..|steps + more| - 1] == steps + more[..n];
      assert more[n] in more && forall step :: step in more[..n] ==> step in more;
      SavingLasts(steps, more[..n], tx, group, was, lineup);
      RunKeepsGroups(steps + more[..n]);
      StepKeepsSaving(Reached(steps + more[..n]), more[n], tx, group, was, lineup);
    }
  }

  lemma RunExtends(steps: seq<Step>, step: Step)
    requires ValidRun(steps) && Enabled(Reached(steps), step)
    ensures ValidRun(steps + [step]) && Reached(steps + [step]) == Next(Reached(steps), step)
  {
    hide Enabled, Next;
    assert (steps + [step])[..|steps + [step]| - 1] == steps;
  }

  /** A save whose check passed may commit whatever happened in between, unless it was aborted. It then
      replaces the very lineup that it was checked against, so that no other save of the group is
      lost, and stores what was sent under the next version. */
  lemma SavesAreSerial(steps: seq<Step>, check: Step, more: seq<Step>)
    requires ValidRun(steps) && check.CheckLineup? && Enabled(Reached(steps), check)
    requires ValidRun(steps + [check] + more) && Commit(check.tx) !in more && Abort(check.tx) !in more
    ensures var w, before := Reached(steps + [check] + more), Reached(steps).lineups[check.group];
            && check.group in w.lineups && w.lineups[check.group] == before
            && Enabled(w, Commit(check.tx))
            && var lineup := Saved(before.version, check.input, check.newIds);
            && Next(w, Commit(check.tx)).lineups == w.lineups[check.group := lineup]
            && lineup.version == before.version + 1
  {
    RunExtends(steps, check);
    RunKeepsGroups(steps + [check]);
    var was := Reached(steps).lineups[check.group];
    var lineup := Saved(check.input.version, check.input, check.newIds);
    assert Saving(Reached(steps + [check]), check.tx, check.group, was, lineup);
    SavingLasts(steps + [check], more, check.tx, check.group, was, lineup);
    hide ValidRun, Reached, IdsFit, AllGood;
  }

  /** How many saves of the group have committed since it was created last. */
  ghost function SavesOf(steps: seq<Step>, group: GroupId): nat
    requires ValidRun(steps)
  {
    if steps == [] then 0
    else
      var n := |steps| - 1;
      var w := Reached(steps[..n]);
      match steps[n]
      case CreateGroup(created, _) => if created == group then 0 else SavesOf(steps[..n], group)
      case Commit(tx) =>
        SavesOf(steps[..n], group) + (if w.open[tx].work.SavingLineup? && w.open[tx].work.group == group then 1 else 0)
      case _ => SavesOf(steps[..n], group)
  }

  lemma StepCountsSaves(w: World, step: Step, group: GroupId)
    requires GroupsHold(w) && Enabled(w, step) && group in Next(w, step).lineups
    ensures (step.CreateGroup? && step.group == group) || group in w.lineups
    ensures var version := Next(w, step).lineups[group].version;
            version == if step.CreateGroup? && step.group == group then 1
                       else w.lineups[group].version
                            + (if step.Commit? && w.open[step.tx].work.SavingLineup?
                                  && w.open[step.tx].work.group == group then 1 else 0)
  {
    hide IdsFit, AllGood, SharesOf, OverridePrograms, UsingGroups, UsingDevices, Pruned, LockedForUpdate, Saved;
  }

  /** In every run the version of a group's lineup is one more than the number of its saves. */
  lemma {:induction false} VersionsCountSaves(steps: seq<Step>, group: GroupId)
    requires ValidRun(steps) && group in Reached(steps).lineups
    ensures Reached(steps).lineups[group].version == 1 + SavesOf(steps, group)
  {
    hide Enabled, Next, GroupsHold;
    if steps != [] {
      var n := |steps| - 1;
      RunKeepsGroups(steps[..n]);
      StepCountsSaves(Reached(steps[..n]), steps[n], group);
      if group in Reached(steps[..n]).lineups { VersionsCountSaves(steps[..n], group); }
    }
  }

  /** An unused program that nobody has locked can be removed: lock it, count its users, commit. */
  lemma UnusedIsRemovable(w: World, tx: TxId, id: ProgramId)
    requires tx !in w.open && id in w.programs
    requires UsingGroups(w.lineups, id) == {} && UsingDevices(w.devices, id) == {}
    requires forall other :: other in w.open ==>
               id !in w.open[other].shares && w.open[other].work != Removing(id, true)
                   && w.open[other].work != Removing(id, false)
    ensures Enabled(w, LockProgram(tx, id))
    ensures var w1 := Next(w, LockProgram(tx, id));
            && Enabled(w1, CountUsage(tx))
            && var w2 := Next(w1, CountUsage(tx));
            && Enabled(w2, Commit(tx)) && Next(w2, Commit(tx)) == w.(programs := w.programs - {id})
  {
    hide UsingGroups, UsingDevices;
    var w1 := Next(w, LockProgram(tx, id));
    var w2 := Next(w1, CountUsage(tx));
    assert Next(w2, Commit(tx)).open == w.open;
  }

  // ---------------------------------------------------------------- what makes a transaction wait

  /** A lineup save gets past its check exactly when it is valid, no other save of the same group is
      open, and no removal holds a program that it names. */
  lemma LineupCheckExactly(w: World, tx: TxId, group: GroupId, input: LineupInput, newIds: seq<BlockId>)
    requires tx !in w.open && |newIds| == |input.blocks|
    ensures Enabled(w, CheckLineup(tx, group, input, newIds))
       <==> && group in w.lineups && w.lineups[group].version == input.version
            && IdsFit(input.blocks, BlockIds(w.lineups[group].blocks)) && AllGood(w.programs, References(input))
            && forall other :: other in w.open ==>
                 match w.open[other].work
                 case SavingLineup(saved, _) => saved != group
                 case SavingDevice(_, _) => true
                 case Removing(id, _) => id !in LineupPrograms(Saved(input.version, input, newIds))
  {
    hide IdsFit, AllGood, LineupPrograms, Saved;
    var shares := SharesOf(input, newIds);
    forall other | other in w.open && w.open[other].work.Removing?
      ensures LockedForUpdate(w, w.open[other].work.program)
    {
    }
    assert forall id :: id in shares && LockedForUpdate(w, id) ==>
      exists other :: other in w.open && w.open[other].work.Removing? && w.open[other].work.program == id;
  }

  /** So does a device save, which waits for no other save, and then may commit what it checked. */
  lemma DeviceCheckExactly(w: World, tx: TxId, device: DeviceId, group: GroupId, overrides: Overrides)
    requires tx !in w.open
    ensures var check := CheckDevice(tx, device, group, overrides);
            && (Enabled(w, check) <==>
                  && device in w.devices && AllGood(w.programs, InfoBarReferences(overrides.infoBar.GetOr([])))
                  && forall other :: other in w.open && w.open[other].work.Removing? ==>
                       w.open[other].work.program !in OverridePrograms(overrides))
            && (Enabled(w, check) ==>
                  && Enabled(Next(w, check), Commit(tx))
                  && var stored := Pruned(overrides, BlockIdsOf(w.lineups, group));
                  && Next(Next(w, check), Commit(tx)) == w.(devices := w.devices[device := Device(group, stored)]))
  {
    hide AllGood, OverridePrograms, Pruned, BlockIdsOf;
    var check := CheckDevice(tx, device, group, overrides);
    if Enabled(w, check) {
      assert Next(Next(w, check), Commit(tx)).open == w.open;
    }
  }

  /** A removal locks its program exactly when it exists and neither a save nor a removal holds it. */
  lemma LockExactly(w: World, tx: TxId, id: ProgramId)
    requires tx !in w.open
    ensures Enabled(w, LockProgram(tx, id))
       <==> && id in w.programs
            && forall other :: other in w.open ==>
                 && id !in w.open[other].shares
                 && (w.open[other].work.Removing? ==> w.open[other].work.program != id)
  {
  }

  /** New programs, groups and devices are stored under free ids, a group goes unless it is being saved. */
  lemma RowsExactly(w: World, id: int, blockId: BlockId, program: Program, group: GroupId)
    ensures Enabled(w, CreateProgram(id, program)) <==> id !in w.programs
    ensures id !in w.programs ==> Next(w, CreateProgram(id, program)) == w.(programs := w.programs[id := program])
    ensures Enabled(w, CreateGroup(id, blockId)) <==> id !in w.lineups
    ensures id !in w.lineups ==>
              Next(w, CreateGroup(id, blockId))
              == w.(lineups := w.lineups[id := Lineup(1, [], [Block(blockId, None, true, 60)])])
    ensures Enabled(w, CreateDevice(id, group)) <==> id !in w.devices
    ensures id !in w.devices ==>
              Next(w, CreateDevice(id, group)) == w.(devices := w.devices[id := Device(group, Overrides(None, map[]))])
    ensures Enabled(w, DropGroup(id)) <==>
              forall tx :: tx in w.open && w.open[tx].work.SavingLineup? ==> w.open[tx].work.group != id
    ensures Enabled(w, DropGroup(id)) ==> Next(w, DropGroup(id)) == w.(lineups := w.lineups - {id})
  {
  }
}
