/** Lineups and device overrides that refer to programs: lineups.service.ts, programs.service.ts,
    program-references.ts, resolve-lineup.ts and the override save of devices.service.ts. */
module ProgramRefs {
  import opened Wrappers

  type ProgramId = int
  type GroupId = int
  type DeviceId = int
  type BlockId = int
  type Item = string

  /** infoBarItem is the slot of the info bar that programs of this type fit into. */
  datatype Program = Program(infoBarItem: Option<Item>)

  datatype Entry = Entry(item: Item, program: ProgramId)

  /** A block shows submissions or a program. */
  datatype Block = Block(id: BlockId, program: Option<ProgramId>, enabled: bool, durationSeconds: int)

  datatype Lineup = Lineup(version: int, infoBar: seq<Entry>, blocks: seq<Block>)

  datatype Change = Change(enabled: Option<bool>, durationSeconds: Option<int>)

  datatype Overrides = Overrides(infoBar: Option<seq<Entry>>, blocks: map<BlockId, Change>)

  datatype Device = Device(programGroup: GroupId, overrides: Overrides)

  const NO_OVERRIDES := Overrides(None, map[])

  /** A new group shows submissions in one block under a random id. */
  function DefaultLineup(blockId: BlockId): Lineup { Lineup(1, [], [Block(blockId, None, true, 60)]) }

  type Programs = map<ProgramId, Program>
  type Lineups = map<GroupId, Lineup>
  type Devices = map<DeviceId, Device>

  // ---------------------------------------------------------------- checking references

  /** Where an error is reported. */
  datatype Path = BlockPath(index: nat) | InfoBarPath(index: nat)

  /** item is the info bar slot, or none for a block. */
  datatype Reference = Reference(path: Path, program: ProgramId, item: Option<Item>)

  datatype RefError = NoSuchProgram | WrongSlot

  predicate Good(programs: Programs, reference: Reference) {
    reference.program in programs
    && (reference.item.Some? ==> programs[reference.program].infoBarItem == reference.item)
  }

  function RefErrorOf(programs: Programs, reference: Reference): Option<RefError> {
    if Good(programs, reference) then None
    else Some(if reference.program !in programs then NoSuchProgram else WrongSlot)
  }

  /** Some reference that is reported at the path has that error. */
  predicate HasError(programs: Programs, references: seq<Reference>, path: Path, error: RefError) {
    exists i :: 0 <= i < |references| && references[i].path == path
        && RefErrorOf(programs, references[i]) == Some(error)
  }

  predicate BadPath(programs: Programs, references: seq<Reference>, path: Path) {
    HasError(programs, references, path, NoSuchProgram) || HasError(programs, references, path, WrongSlot)
  }

  /** The reference of every program block, in order. */
  function BlockReferences(blocks: seq<Option<ProgramId>>): seq<Reference> {
    if blocks == [] then []
    else
      var i := |blocks| - 1;
      BlockReferences(blocks[..i]) + (if blocks[i].Some? then [Reference(BlockPath(i), blocks[i].value, None)] else [])
  }

  function InfoBarReferences(infoBar: seq<Entry>): seq<Reference> {
    seq(|infoBar|, i requires 0 <= i < |infoBar| =>
      Reference(InfoBarPath(i), infoBar[i].program, Some(infoBar[i].item)))
  }

  lemma {:induction false} BlockReferencesHold(programs: Programs, blocks: seq<Option<ProgramId>>)
    ensures (forall i :: 0 <= i < |BlockReferences(blocks)| ==> Good(programs, BlockReferences(blocks)[i]))
       <==> (forall i :: 0 <= i < |blocks| && blocks[i].Some? ==> blocks[i].value in programs)
  {
    if blocks != [] {
      var i := |blocks| - 1;
      BlockReferencesHold(programs, blocks[..i]);
      var before, all := BlockReferences(blocks[..i]), BlockReferences(blocks);
      assert forall k :: 0 <= k < |before| ==> all[k] == before[k];
      assert forall k :: 0 <= k < i ==> blocks[..i][k] == blocks[k];
      if blocks[i].Some? {
        assert all[|before|] == Reference(BlockPath(i), blocks[i].value, None);
      }
    }
  }

  predicate BlocksFit(programs: Programs, blocks: seq<Block>) {
    forall i :: 0 <= i < |blocks| && blocks[i].program.Some? ==> blocks[i].program.value in programs
  }

  predicate InfoBarFits(programs: Programs, infoBar: seq<Entry>) {
    forall i :: 0 <= i < |infoBar| ==>
      infoBar[i].program in programs && programs[infoBar[i].program].infoBarItem == Some(infoBar[i].item)
  }

  // ---------------------------------------------------------------- saving a lineup

  /** A block as it is sent: without an id it is new. */
  datatype BlockInput = BlockInput(id: Option<BlockId>, program: Option<ProgramId>, enabled: bool, durationSeconds: int)

  datatype LineupInput = LineupInput(version: int, infoBar: seq<Entry>, blocks: seq<BlockInput>)

  datatype IdError = UnknownBlock | RepeatedBlock

  predicate Repeats(blocks: seq<BlockInput>, i: nat)
    requires i < |blocks|
  {
    blocks[i].id.Some? && exists j :: 0 <= j < i && blocks[j].id == blocks[i].id
  }

  predicate WrongId(blocks: seq<BlockInput>, existing: set<BlockId>, i: nat)
    requires i < |blocks|
  {
    blocks[i].id.Some? && (blocks[i].id.value !in existing || Repeats(blocks, i))
  }

  /** The error of a wrong id. */
  function IdErrorOf(block: BlockInput, existing: set<BlockId>): IdError {
    if block.id.Some? && block.id.value !in existing then UnknownBlock else RepeatedBlock
  }

  /** Every block that is sent with an id keeps a block of the group, and no two keep the same. */
  predicate IdsFit(blocks: seq<BlockInput>, existing: set<BlockId>) {
    && (forall i :: 0 <= i < |blocks| && blocks[i].id.Some? ==> blocks[i].id.value in existing)
    && (forall i, j :: 0 <= i < j < |blocks| && blocks[i].id.Some? ==> blocks[i].id != blocks[j].id)
  }

  function BlockIds(blocks: seq<Block>): set<BlockId> { set i | 0 <= i < |blocks| :: blocks[i].id }

  function BlockIdsOf(lineups: Lineups, group: GroupId): set<BlockId> {
    if group in lineups then BlockIds(lineups[group].blocks) else {}
  }

  function ProgramsOf(blocks: seq<BlockInput>): seq<Option<ProgramId>> {
    seq(|blocks|, i requires 0 <= i < |blocks| => blocks[i].program)
  }

  function References(input: LineupInput): seq<Reference> {
    BlockReferences(ProgramsOf(input.blocks)) + InfoBarReferences(input.infoBar)
  }

  /** newIds are the random ids of the blocks that are sent without one. */
  function Saved(version: int, input: LineupInput, newIds: seq<BlockId>): Lineup
    requires |newIds| == |input.blocks|
  {
    Lineup(version + 1, input.infoBar,
           seq(|input.blocks|, i requires 0 <= i < |input.blocks| =>
             Block(input.blocks[i].id.GetOr(newIds[i]), input.blocks[i].program,
                   input.blocks[i].enabled, input.blocks[i].durationSeconds)))
  }

  predicate AllGood(programs: Programs, references: seq<Reference>) {
    forall i :: 0 <= i < |references| ==> Good(programs, references[i])
  }

  /** What the saved lineup refers to is exactly what was checked. */
  lemma SavedFits(programs: Programs, version: int, input: LineupInput, newIds: seq<BlockId>)
    requires |newIds| == |input.blocks|
    ensures var lineup := Saved(version, input, newIds);
            AllGood(programs, References(input))
            <==> BlocksFit(programs, lineup.blocks) && InfoBarFits(programs, lineup.infoBar)
  {
    var lineup := Saved(version, input, newIds);
    var blocks, infoBar := BlockReferences(ProgramsOf(input.blocks)), InfoBarReferences(input.infoBar);
    BlockReferencesHold(programs, ProgramsOf(input.blocks));
    assert forall i :: 0 <= i < |input.blocks| ==> lineup.blocks[i].program == ProgramsOf(input.blocks)[i];
    SplitGood(programs, blocks, infoBar);
    assert forall i :: 0 <= i < |input.infoBar| ==>
      infoBar[i] == Reference(InfoBarPath(i), input.infoBar[i].program, Some(input.infoBar[i].item));
  }

  /** What a save writes: the next version, the info bar as sent, and the blocks in the order sent, each
      with its program, state and time as sent, under the id sent with it or else its new id. */
  lemma SavedExactly(version: int, input: LineupInput, newIds: seq<BlockId>)
    requires |newIds| == |input.blocks|
    ensures var lineup := Saved(version, input, newIds);
            && lineup.version == version + 1 && lineup.infoBar == input.infoBar
            && |lineup.blocks| == |input.blocks|
            && forall i :: 0 <= i < |input.blocks| ==>
                 && (input.blocks[i].id.Some? ==> lineup.blocks[i].id == input.blocks[i].id.value)
                 && (input.blocks[i].id.None? ==> lineup.blocks[i].id == newIds[i])
                 && lineup.blocks[i].program == input.blocks[i].program
                 && lineup.blocks[i].enabled == input.blocks[i].enabled
                 && lineup.blocks[i].durationSeconds == input.blocks[i].durationSeconds
  {
  }

  /** Which error a reference and a block id get. */
  lemma ErrorsExactly(programs: Programs, reference: Reference, blocks: seq<BlockInput>, existing: set<BlockId>, i: nat)
    requires i < |blocks|
    ensures var Reference(_, program, item) := reference;
            && (RefErrorOf(programs, reference) == Some(NoSuchProgram) <==> program !in programs)
            && (RefErrorOf(programs, reference) == Some(WrongSlot)
                <==> program in programs && item.Some? && programs[program].infoBarItem != item)
    ensures WrongId(blocks, existing, i) && IdErrorOf(blocks[i], existing) == UnknownBlock
       <==> blocks[i].id.Some? && blocks[i].id.value !in existing
    ensures WrongId(blocks, existing, i) && IdErrorOf(blocks[i], existing) == RepeatedBlock
       <==> && blocks[i].id.Some? && blocks[i].id.value in existing
            && exists j :: 0 <= j < i && blocks[j].id == blocks[i].id
  {
  }

  lemma SplitGood(programs: Programs, a: seq<Reference>, b: seq<Reference>)
    ensures AllGood(programs, a + b) <==> AllGood(programs, a) && AllGood(programs, b)
  {
    assert forall i :: 0 <= i < |a| ==> (a + b)[i] == a[i];
    assert forall i :: 0 <= i < |b| ==> (a + b)[|a| + i] == b[i];
  }

  datatype SaveResult = Done | NotFound | Conflict | Invalid

  // ---------------------------------------------------------------- who uses a program

  function BlockPrograms(blocks: seq<Block>): set<ProgramId> {
    set i | 0 <= i < |blocks| && blocks[i].program.Some? :: blocks[i].program.value
  }

  function InfoBarPrograms(infoBar: seq<Entry>): set<ProgramId> {
    set i | 0 <= i < |infoBar| :: infoBar[i].program
  }

  predicate UsesInLineup(lineup: Lineup, program: ProgramId) {
    program in BlockPrograms(lineup.blocks) || program in InfoBarPrograms(lineup.infoBar)
  }

  predicate UsesInOverrides(overrides: Overrides, program: ProgramId) {
    program in InfoBarPrograms(overrides.infoBar.GetOr([]))
  }

  predicate RowUses(rows: map<int, set<ProgramId>>, row: int, program: ProgramId) {
    row in rows && program in rows[row]
  }

  function UsingGroups(lineups: Lineups, program: ProgramId): set<GroupId> {
    set group | group in lineups && UsesInLineup(lineups[group], program)
  }

  function UsingDevices(devices: Devices, program: ProgramId): set<DeviceId> {
    set device | device in devices && UsesInOverrides(devices[device].overrides, program)
  }

  /** Who uses a program: a group with a block or an info bar entry for it, and a device whose override
      of the info bar has an entry for it. */
  lemma UsersExactly(lineups: Lineups, devices: Devices, program: ProgramId)
    ensures forall group :: group in UsingGroups(lineups, program) <==>
              && group in lineups
              && var Lineup(_, infoBar, blocks) := lineups[group];
              && ( || (exists i :: 0 <= i < |blocks| && blocks[i].program == Some(program))
                   || (exists i :: 0 <= i < |infoBar| && infoBar[i].program == program))
    ensures forall device :: device in UsingDevices(devices, program) <==>
              && device in devices && devices[device].overrides.infoBar.Some?
              && var infoBar := devices[device].overrides.infoBar.value;
              && exists i :: 0 <= i < |infoBar| && infoBar[i].program == program
  {
    forall group | group in lineups
      ensures program in BlockPrograms(lineups[group].blocks)
         <==> exists i :: 0 <= i < |lineups[group].blocks| && lineups[group].blocks[i].program == Some(program)
    {
    }
    forall device | device in devices && devices[device].overrides.infoBar.None?
      ensures program !in InfoBarPrograms(devices[device].overrides.infoBar.GetOr([]))
    {
    }
  }

  datatype Usage = Usage(groups: seq<GroupId>, devices: seq<DeviceId>)

  predicate Distinct(s: seq<int>) { forall i, j :: 0 <= i < j < |s| ==> s[i] != s[j] }

  predicate IsUsed(usage: Usage) { |usage.groups| > 0 || |usage.devices| > 0 }

  // ---------------------------------------------------------------- device overrides

  /** Drops the changes of blocks that the group does not have and the changes that change nothing. */
  function Pruned(overrides: Overrides, blocks: set<BlockId>): Overrides {
    overrides.(blocks :=
      map id | id in overrides.blocks && id in blocks && overrides.blocks[id] != Change(None, None) ::
          overrides.blocks[id])
  }

  function Changed(block: Block, overrides: Overrides): Block {
    if block.id in overrides.blocks then
      block.(enabled := overrides.blocks[block.id].enabled.GetOr(block.enabled),
             durationSeconds := overrides.blocks[block.id].durationSeconds.GetOr(block.durationSeconds))
    else block
  }

  /** resolveLineup: what a device of the group follows. */
  function Resolved(lineup: Lineup, overrides: Overrides): Lineup {
    Lineup(lineup.version, overrides.infoBar.GetOr(lineup.infoBar),
           seq(|lineup.blocks|, i requires 0 <= i < |lineup.blocks| => Changed(lineup.blocks[i], overrides)))
  }

  /** Pruning does not change what the device follows. */
  lemma PruningKeepsTheLineup(lineup: Lineup, overrides: Overrides)
    ensures Resolved(lineup, Pruned(overrides, BlockIds(lineup.blocks))) == Resolved(lineup, overrides)
  {
    var pruned := Pruned(overrides, BlockIds(lineup.blocks));
    forall i | 0 <= i < |lineup.blocks|
      ensures Changed(lineup.blocks[i], pruned) == Changed(lineup.blocks[i], overrides)
    {
      assert lineup.blocks[i].id in BlockIds(lineup.blocks);
    }
  }

  /** What a device follows once its overrides were saved: every block of the group, with the state
      and the time of its override where that names them, and its own info bar if it has one. */
  lemma OverridesTakeEffect(lineup: Lineup, overrides: Overrides)
    ensures var followed := Resolved(lineup, Pruned(overrides, BlockIds(lineup.blocks)));
            && followed.version == lineup.version && |followed.blocks| == |lineup.blocks|
            && followed.infoBar == (if overrides.infoBar.Some? then overrides.infoBar.value else lineup.infoBar)
            && forall i :: 0 <= i < |lineup.blocks| ==>
                 var block, own := lineup.blocks[i], followed.blocks[i];
                 var changed := block.id in overrides.blocks;
                 && own.id == block.id && own.program == block.program
                 && own.enabled == (if changed && overrides.blocks[block.id].enabled.Some?
                                    then overrides.blocks[block.id].enabled.value else block.enabled)
                 && own.durationSeconds == (if changed && overrides.blocks[block.id].durationSeconds.Some?
                                            then overrides.blocks[block.id].durationSeconds.value
                                            else block.durationSeconds)
  {
    PruningKeepsTheLineup(lineup, overrides);
  }

  /** What is stored of the overrides: those of the group's blocks that change something. */
  lemma PrunedExactly(overrides: Overrides, blocks: set<BlockId>)
    ensures var pruned := Pruned(overrides, blocks);
            && pruned.infoBar == overrides.infoBar
            && forall id ::
                 && (id in pruned.blocks <==>
                       && id in overrides.blocks && id in blocks
                       && (overrides.blocks[id].enabled.Some? || overrides.blocks[id].durationSeconds.Some?))
                 && (id in pruned.blocks ==> pruned.blocks[id] == overrides.blocks[id])
  {
  }

  /** One more reference adds its error, if it has one, at its path. */
  lemma MoreReferences(programs: Programs, references: seq<Reference>, k: nat)
    requires k < |references|
    ensures forall path, error :: HasError(programs, references[..k + 1], path, error)
              <==> || HasError(programs, references[..k], path, error)
                   || (references[k].path == path && RefErrorOf(programs, references[k]) == Some(error))
  {
    var before, all := references[..k], references[..k + 1];
    assert all == before + [references[k]];
    forall path, error
      ensures HasError(programs, all, path, error)
        <==> || HasError(programs, before, path, error)
             || (references[k].path == path && RefErrorOf(programs, references[k]) == Some(error))
    {
      if HasError(programs, before, path, error) {
        var i :| 0 <= i < |before| && before[i].path == path && RefErrorOf(programs, before[i]) == Some(error);
        assert all[i] == before[i];
      }
      if references[k].path == path && RefErrorOf(programs, references[k]) == Some(error) {
        assert all[k] == references[k];
      }
    }
  }

  lemma NoErrorsMeansGood(programs: Programs, references: seq<Reference>, paths: set<Path>)
    requires forall path :: path in paths <==> BadPath(programs, references, path)
    ensures paths == {} <==> AllGood(programs, references)
  {
    if !AllGood(programs, references) {
      var i :| 0 <= i < |references| && !Good(programs, references[i]);
      assert RefErrorOf(programs, references[i]).Some?;
      assert HasError(programs, references, references[i].path, RefErrorOf(programs, references[i]).value);
      assert references[i].path in paths;
    } else {
      assert forall path :: !BadPath(programs, references, path);
    }
  }

  // ---------------------------------------------------------------- the tables

  class Tables {
    var programs: Programs
    var lineups: Lineups
    var devices: Devices

    constructor ()
      ensures programs == map[] && lineups == map[] && devices == map[]
    {
      programs, lineups, devices := map[], map[], map[];
    }

    /** checkPrograms: an error for every path whose program is missing or does not fit its slot. */
    method CheckPrograms(references: seq<Reference>) returns (fields: map<Path, RefError>)
      ensures forall path :: path in fields <==> BadPath(programs, references, path)
      ensures forall path :: path in fields ==> HasError(programs, references, path, fields[path])
      ensures fields == map[] <==> AllGood(programs, references)
    {
      fields := map[];
      for k := 0 to |references|
        invariant forall path :: path in fields <==> BadPath(programs, references[..k], path)
        invariant forall path :: path in fields ==> HasError(programs, references[..k], path, fields[path])
      {
        var reference := references[k];
        MoreReferences(programs, references, k);
        if reference.program !in programs {
          fields := fields[reference.path := NoSuchProgram];
        } else if reference.item.Some? && programs[reference.program].infoBarItem != reference.item {
          fields := fields[reference.path := WrongSlot];
        }
      }
      assert references[..|references|] == references;
      NoErrorsMeansGood(programs, references, fields.Keys);
      assert fields == map[] <==> fields.Keys == {};
    }

    /** blockIdErrors: which blocks name an id that the group does not have, or one named before. */
    static method BlockIdErrors(blocks: seq<BlockInput>, existing: set<BlockId>) returns (fields: map<nat, IdError>)
      ensures forall i: nat :: i in fields <==> i < |blocks| && WrongId(blocks, existing, i)
      ensures forall i: nat :: i in fields ==> fields[i] == IdErrorOf(blocks[i], existing)
      ensures fields == map[] <==> IdsFit(blocks, existing)
    {
      fields := map[];
      var seen: set<BlockId> := {};
      for k := 0 to |blocks|
        invariant forall id :: id in seen <==> exists j :: 0 <= j < k && blocks[j].id == Some(id)
        invariant forall i: nat :: i in fields <==> i < k && WrongId(blocks, existing, i)
        invariant forall i: nat :: i in fields ==> fields[i] == IdErrorOf(blocks[i], existing)
      {
        var block := blocks[k];
        if block.id.Some? {
          RepeatsIsSeen(blocks, k, seen);
          if block.id.value !in existing {
            fields := fields[k := UnknownBlock];
          } else if block.id.value in seen {
            fields := fields[k := RepeatedBlock];
          }
          seen := seen + {block.id.value};
        }
        assert k in fields <==> WrongId(blocks, existing, k);
      }
      NoErrorsMeansFit(blocks, existing, fields.Keys);
      assert fields == map[] <==> fields.Keys == {};
    }

    /** replace, when no other transaction is in the way. */
    method Replace(group: GroupId, input: LineupInput, newIds: seq<BlockId>) returns (result: SaveResult)
      requires |newIds| == |input.blocks|
      modifies this`lineups
      ensures result == if group !in old(lineups) then NotFound
                        else if old(lineups)[group].version != input.version then Conflict
                        else if && IdsFit(input.blocks, BlockIds(old(lineups)[group].blocks))
                                && AllGood(programs, References(input)) then Done
                        else Invalid
      ensures lineups == if result == Done
                         then old(lineups)[group := Saved(input.version, input, newIds)] else old(lineups)
    {
      if group !in lineups {
        return NotFound;
      }
      if lineups[group].version != input.version {
        return Conflict;
      }
      var ids := BlockIdErrors(input.blocks, BlockIds(lineups[group].blocks));
      var refs := CheckPrograms(References(input));
      if ids != map[] || refs != map[] {
        return Invalid;
      }
      lineups := lineups[group := Saved(input.version, input, newIds)];
      return Done;
    }

    /** prepareOverrides and the update of the device row. */
    method SaveOverrides(device: DeviceId, group: GroupId, overrides: Overrides) returns (result: SaveResult)
      modifies this`devices
      ensures result == if device !in old(devices) then NotFound
                        else if AllGood(programs, InfoBarReferences(overrides.infoBar.GetOr([]))) then Done else Invalid
      ensures devices == if result == Done
                         then old(devices)[device := Device(group, Pruned(overrides, BlockIdsOf(lineups, group)))]
                         else old(devices)
    {
      if device !in devices {
        return NotFound;
      }
      var fields := CheckPrograms(InfoBarReferences(overrides.infoBar.GetOr([])));
      if fields != map[] {
        return Invalid;
      }
      devices := devices[device := Device(group, Pruned(overrides, BlockIdsOf(lineups, group)))];
      return Done;
    }

    /** The list without its order, sorted. */
    static method Sort(s: seq<int>) returns (r: seq<int>)
      requires Distinct(s)
      ensures Lists(r, set x | x in s)
    {
      r := [];
      for k := 0 to |s|
        invariant Increasing(r)
        invariant forall x :: x in r <==> x in s[..k]
      {
        var at := 0;
        while at < |r| && r[at] < s[k]
          invariant at <= |r| && forall i :: 0 <= i < at ==> r[i] < s[k]
        {
          at := at + 1;
        }
        assert s[..k + 1] == s[..k] + [s[k]];
        assert s[k] !in s[..k];
        assert forall i :: 0 <= i < |r| ==> r[i] in r;
        r := r[..at] + [s[k]] + r[at..];
      }
      assert s[..|s|] == s;
    }

    static method SortAll(lists: map<ProgramId, seq<int>>) returns (sorted: map<ProgramId, seq<int>>)
      requires forall id :: id in lists ==> Distinct(lists[id])
      ensures sorted.Keys == lists.Keys
      ensures forall id :: id in lists ==> Lists(sorted[id], set x | x in lists[id])
    {
      hide Distinct, Lists;
      sorted := map[];
      var todo := lists.Keys;
      while todo != {}
        invariant todo <= lists.Keys && sorted.Keys == lists.Keys - todo
        invariant forall id :: id in sorted ==> Lists(sorted[id], set x | x in lists[id])
        decreases |todo|
      {
        assert (forall id :: id !in todo) ==> todo == {};
        var id :| id in todo;
        var one := Sort(lists[id]);
        sorted := sorted[id := one];
        todo := todo - {id};
      }
    }

    /** Note the user in the list of every one of these programs, once. */
    static method AddUser(lists: map<ProgramId, seq<int>>, programs: set<ProgramId>, user: int)
      returns (next: map<ProgramId, seq<int>>)
      requires forall id :: id in lists ==> Distinct(lists[id])
      ensures next.Keys == lists.Keys
      ensures forall id :: id in lists ==> Distinct(next[id])
      ensures forall id, x :: id in lists ==> (x in next[id] <==> x in lists[id] || (x == user && id in programs))
    {
      next := lists;
      var todo := programs;
      while todo != {}
        invariant todo <= programs && next.Keys == lists.Keys
        invariant forall id :: id in lists ==> Distinct(next[id])
        invariant forall id, x :: id in lists ==>
                    (x in next[id] <==> x in lists[id] || (x == user && id in programs - todo))
        decreases |todo|
      {
        assert (forall id :: id !in todo) ==> todo == {};
        var program :| program in todo;
        if program in next && user !in next[program] {
          next := next[program := next[program] + [user]];
        }
        todo := todo - {program};
      }
    }

    /** Note the user of every row in the lists of the programs that the row uses. */
    static method AddUsers(lists: map<ProgramId, seq<int>>, rows: map<int, set<ProgramId>>)
      returns (next: map<ProgramId, seq<int>>)
      requires forall id :: id in lists ==> Distinct(lists[id])
      ensures next.Keys == lists.Keys
      ensures forall id :: id in lists ==> Distinct(next[id])
      ensures forall id, x :: id in lists ==> (x in next[id] <==> x in lists[id] || RowUses(rows, x, id))
    {
      next := lists;
      var todo := rows.Keys;
      while todo != {}
        invariant todo <= rows.Keys && next.Keys == lists.Keys
        invariant forall id :: id in lists ==> Distinct(next[id])
        invariant forall id, x :: id in lists ==>
                    (x in next[id] <==> x in lists[id] || (x !in todo && RowUses(rows, x, id)))
        decreases |todo|
      {
        assert (forall x :: x !in todo) ==> todo == {};
        var row :| row in todo;
        next := AddUser(next, rows[row], row);
        todo := todo - {row};
      }
      forall id, x | id in lists
        ensures x in next[id] <==> x in lists[id] || RowUses(rows, x, id)
      {
        assert x !in todo;
      }
    }

    /** programUsageOf: for each program the groups with a block or an info bar entry for it, and the
        devices with an info bar override for it. */
    method ProgramUsageOf(ids: set<ProgramId>) returns (usage: map<ProgramId, Usage>)
      ensures usage.Keys == ids
      ensures forall id :: id in ids ==>
                Lists(usage[id].groups, UsingGroups(lineups, id)) && Lists(usage[id].devices, UsingDevices(devices, id))
    {
      hide BlockPrograms, InfoBarPrograms, Distinct, Lists, Increasing;
      var none: map<ProgramId, seq<int>> := map id | id in ids :: [];
      assert forall id :: id in none ==> Distinct(none[id]) by { EmptyIsDistinct(); }
      var blockRows := map group | group in lineups :: BlockPrograms(lineups[group].blocks);
      var groupRows := map group | group in lineups :: InfoBarPrograms(lineups[group].infoBar);
      var deviceRows := map device | device in devices :: InfoBarPrograms(devices[device].overrides.infoBar.GetOr([]));
      var inBlocks := AddUsers(none, blockRows);
      var inGroups := AddUsers(inBlocks, groupRows);
      var inDevices := AddUsers(none, deviceRows);
      var groups := SortAll(inGroups);
      var users := SortAll(inDevices);
      forall id | id in ids
        ensures (set x | x in inGroups[id]) == UsingGroups(lineups, id)
        ensures (set x | x in inDevices[id]) == UsingDevices(devices, id)
      {
        forall x
          ensures x in inGroups[id] <==> x in UsingGroups(lineups, id)
          ensures x in inDevices[id] <==> x in UsingDevices(devices, id)
        {
          assert x in inGroups[id] <==> RowUses(blockRows, x, id) || RowUses(groupRows, x, id);
          assert x in inDevices[id] <==> RowUses(deviceRows, x, id);
        }
      }
      usage := map id | id in ids :: Usage(groups[id], users[id]);
    }

    /** remove, when no other transaction is in the way. */
    method Remove(program: ProgramId) returns (result: SaveResult)
      modifies this`programs
      ensures result == if program !in old(programs) then NotFound
                        else if UsingGroups(lineups, program) == {} && UsingDevices(devices, program) == {} then Done
                        else Conflict
      ensures programs == if result == Done then old(programs) - {program} else old(programs)
    {
      if program !in programs {
        return NotFound;
      }
      var all := ProgramUsageOf({program});
      var usage := all[program];
      EmptyLists(usage.groups, UsingGroups(lineups, program));
      EmptyLists(usage.devices, UsingDevices(devices, program));
      if IsUsed(usage) {
        return Conflict;
      }
      programs := programs - {program};
      return Done;
    }
  }

  lemma EmptyIsDistinct()
    ensures Distinct([])
  {
  }

  lemma EmptyLists(s: seq<int>, elements: set<int>)
    requires Lists(s, elements)
    ensures |s| == 0 <==> elements == {}
  {
    if |s| > 0 {
      assert s[0] in elements;
    } else {
      assert forall x :: x !in elements;
    }
  }

  lemma RepeatsIsSeen(blocks: seq<BlockInput>, k: nat, seen: set<BlockId>)
    requires k < |blocks| && blocks[k].id.Some?
    requires forall id :: id in seen <==> exists j :: 0 <= j < k && blocks[j].id == Some(id)
    ensures Repeats(blocks, k) <==> blocks[k].id.value in seen
  {
    var id := blocks[k].id.value;
    if id in seen {
      var j :| 0 <= j < k && blocks[j].id == Some(id);
      assert blocks[j].id == blocks[k].id;
    }
    if Repeats(blocks, k) {
      var j :| 0 <= j < k && blocks[j].id == blocks[k].id;
      assert blocks[j].id == Some(id);
    }
  }

  lemma NoErrorsMeansFit(blocks: seq<BlockInput>, existing: set<BlockId>, errors: set<nat>)
    requires forall i: nat :: i in errors <==> i < |blocks| && WrongId(blocks, existing, i)
    ensures errors == {} <==> IdsFit(blocks, existing)
  {
    if !IdsFit(blocks, existing) {
      if i :| 0 <= i < |blocks| && blocks[i].id.Some? && blocks[i].id.value !in existing {
        assert i in errors;
      } else {
        var i, j :| 0 <= i < j < |blocks| && blocks[i].id.Some? && blocks[i].id == blocks[j].id;
        assert Repeats(blocks, j) && j in errors;
      }
    }
  }
}
