/**
 Visualizers of Solana instructions: which one handles an instruction, and the order in
 which the build script lists them.
 */
module Dispatch {
  import opened Wrappers
  import opened Selections
  import opened TokenAmount
  import P = Payload

  datatype Error =
    | ParseError(message: string)
    | DecodeError(message: string)
    | MissingData(message: string)
    | ConversionError(message: string)
    | InvariantViolation(expected: nat, got: nat)

  datatype AccountMeta = AccountMeta(pubkey: string, isSigner: bool, isWritable: bool)

  datatype Instruction = Instruction(programId: string, accounts: seq<AccountMeta>, data: seq<u8>)

  datatype Context = Context(sender: string, index: nat, instructions: seq<Instruction>)

  function CurrentInstruction(c: Context): Option<Instruction> {
    if c.index < |c.instructions| then Some(c.instructions[c.index]) else None
  }

  /** `catchAll` stands for an overridden `can_handle` that always says yes. */
  datatype Config = Config(programs: set<string>, catchAll: bool)

  datatype Visualizer = Visualizer(
    config: Option<Config>,
    kind: string,
    visualize: Context -> Result<P.AnnotatedField, Error>)

  predicate ConfigHandles(c: Config, programId: string) {
    c.catchAll || programId in c.programs
  }

  predicate CanHandle(v: Visualizer, c: Context) {
    match (v.config, CurrentInstruction(c))
    case (Some(config), Some(instruction)) => ConfigHandles(config, instruction.programId)
    case _ => false
  }

  datatype VisualizeResult = VisualizeResult(field: P.AnnotatedField, kind: string)

  /** The first visualizer that can handle the instruction decides, even when it fails. */
  function VisualizeWithAny(vs: seq<Visualizer>, c: Context): Option<Result<VisualizeResult, Error>> {
    if vs == [] then None
    else if !CanHandle(vs[0], c) then VisualizeWithAny(vs[1..], c)
    else
      match vs[0].visualize(c)
      case Ok(field) => Some(Ok(VisualizeResult(field, vs[0].kind)))
      case Err(e) => Some(Err(e))
  }

  /** `v` handles the instruction and no visualizer before it does. */
  ghost predicate IsChosen(vs: seq<Visualizer>, c: Context, v: Visualizer) {
    exists k :: 0 <= k < |vs| && vs[k] == v && CanHandle(v, c) && forall n :: 0 <= n < k ==> !CanHandle(vs[n], c)
  }

  lemma {:induction false} ChosenDecides(vs: seq<Visualizer>, c: Context, v: Visualizer)
    requires IsChosen(vs, c, v)
    ensures VisualizeWithAny(vs, c) == match v.visualize(c)
                                       case Ok(field) => Some(Ok(VisualizeResult(field, v.kind)))
                                       case Err(e) => Some(Err(e))
  {
    var k :| 0 <= k < |vs| && vs[k] == v && CanHandle(v, c) && forall n :: 0 <= n < k ==> !CanHandle(vs[n], c);
    if k > 0 {
      assert vs[1..][k - 1] == v;
      ChosenDecides(vs[1..], c, v);
    }
  }

  lemma {:induction false} NoneHandles(vs: seq<Visualizer>, c: Context)
    ensures VisualizeWithAny(vs, c).None? <==> forall k :: 0 <= k < |vs| ==> !CanHandle(vs[k], c)
  {
    if vs != [] {
      NoneHandles(vs[1..], c);
      assert vs == [vs[0]] + vs[1..];
    }
  }

  ghost predicate HasCatchAll(vs: seq<Visualizer>) {
    exists k :: 0 <= k < |vs| && vs[k].config.Some? && vs[k].config.value.catchAll
  }

  /** With a catch-all in the list every instruction finds a visualizer. */
  lemma CatchAllHandles(vs: seq<Visualizer>, c: Context)
    requires HasCatchAll(vs) && c.index < |c.instructions|
    ensures VisualizeWithAny(vs, c).Some?
  {
    NoneHandles(vs, c);
  }

  // ----- the build script

  datatype Entry = Entry(name: string, isDir: bool)

  const UNKNOWN_PROGRAM := "unknown_program"

  function Directories(listing: seq<Entry>): seq<string> {
    if listing == [] then []
    else if listing[0].isDir then [listing[0].name] + Directories(listing[1..])
    else Directories(listing[1..])
  }

  /** One half of `partition`: the names for which being the catch-all is `unknown`. */
  function Part(names: seq<string>, unknown: bool): seq<string> {
    if names == [] then []
    else if (names[0] == UNKNOWN_PROGRAM) == unknown then [names[0]] + Part(names[1..], unknown)
    else Part(names[1..], unknown)
  }

  /** Directories of both folders, the catch-all moved last. */
  function CollectVisualizers(presets: seq<Entry>, integrations: seq<Entry>): seq<string> {
    var all := Directories(presets) + Directories(integrations);
    Part(all, false) + Part(all, true)
  }

  function IsDirectory(): Entry -> bool {
    (e: Entry) => e.isDir
  }

  function NameOf(): Entry -> string {
    (e: Entry) => e.name
  }

  function IsUnknown(unknown: bool): string -> bool {
    (name: string) => (name == UNKNOWN_PROGRAM) == unknown
  }

  function Itself(): string -> string {
    (name: string) => name
  }

  lemma {:induction false} DirectoriesSelect(listing: seq<Entry>)
    ensures IsFilterMap(Directories(listing), listing, IsDirectory(), NameOf())
  {
    if listing == [] {
      EmptyFilterMap(IsDirectory(), NameOf());
    } else {
      DirectoriesSelect(listing[1..]);
      ConsFilterMap(Directories(listing[1..]), listing, IsDirectory(), NameOf());
      assert [] + Directories(listing[1..]) == Directories(listing[1..]);
    }
  }

  lemma {:induction false} PartSelects(names: seq<string>, unknown: bool)
    ensures IsFilterMap(Part(names, unknown), names, IsUnknown(unknown), Itself())
  {
    if names == [] {
      EmptyFilterMap(IsUnknown(unknown), Itself());
    } else {
      PartSelects(names[1..], unknown);
      ConsFilterMap(Part(names[1..], unknown), names, IsUnknown(unknown), Itself());
      assert [] + Part(names[1..], unknown) == Part(names[1..], unknown);
    }
  }

  /**
   The directories of both folders in listing order, each once: first those that are not the
   catch-all, then those that are.
   */
  lemma CollectedInOrder(presets: seq<Entry>, integrations: seq<Entry>)
    ensures exists dirs, dirs', specific, unknown ::
              && IsFilterMap(dirs, presets, IsDirectory(), NameOf())
              && IsFilterMap(dirs', integrations, IsDirectory(), NameOf())
              && IsFilterMap(specific, dirs + dirs', IsUnknown(false), Itself())
              && IsFilterMap(unknown, dirs + dirs', IsUnknown(true), Itself())
              && CollectVisualizers(presets, integrations) == specific + unknown
  {
    DirectoriesSelect(presets);
    DirectoriesSelect(integrations);
    var all := Directories(presets) + Directories(integrations);
    PartSelects(all, false);
    PartSelects(all, true);
    assert CollectVisualizers(presets, integrations) == Part(all, false) + Part(all, true);
  }

  lemma {:induction false} DirectoryNames(listing: seq<Entry>, name: string)
    ensures name in Directories(listing) <==> Entry(name, true) in listing
  {
    if listing != [] {
      DirectoryNames(listing[1..], name);
      assert listing == [listing[0]] + listing[1..];
    }
  }

  lemma {:induction false} PartNames(names: seq<string>, unknown: bool, name: string)
    ensures name in Part(names, unknown) <==> name in names && (name == UNKNOWN_PROGRAM) == unknown
  {
    if names != [] {
      PartNames(names[1..], unknown, name);
      assert names == [names[0]] + names[1..];
    }
  }

  /** Everything listed is kept, and only catch-alls follow a catch-all. */
  lemma CollectedNames(presets: seq<Entry>, integrations: seq<Entry>)
    ensures var names := CollectVisualizers(presets, integrations);
            && (forall n :: n in names <==> Entry(n, true) in presets || Entry(n, true) in integrations)
            && (forall i, j :: 0 <= i < j < |names| && names[i] == UNKNOWN_PROGRAM ==> names[j] == UNKNOWN_PROGRAM)
  {
    var all := Directories(presets) + Directories(integrations);
    var specific, unknown := Part(all, false), Part(all, true);
    forall n ensures n in specific + unknown <==> Entry(n, true) in presets || Entry(n, true) in integrations {
      DirectoryNames(presets, n);
      DirectoryNames(integrations, n);
      PartNames(all, false, n);
      PartNames(all, true, n);
    }
    forall i | 0 <= i < |specific| ensures specific[i] != UNKNOWN_PROGRAM {
      PartNames(all, false, specific[i]);
    }
    forall i | 0 <= i < |unknown| ensures unknown[i] == UNKNOWN_PROGRAM {
      PartNames(all, true, unknown[i]);
    }
  }

  // ----- the presets

  datatype Preset = AssociatedTokenAccount | ComputeBudget | JupiterSwap | StakePool | System | UnknownProgram

  /** The folder that holds a preset. */
  function Folder(p: Preset): string {
    match p
    case AssociatedTokenAccount => "associated_token_account"
    case ComputeBudget => "compute_budget"
    case JupiterSwap => "jupiter_swap"
    case StakePool => "stakepool"
    case System => "system"
    case UnknownProgram => UNKNOWN_PROGRAM
  }

  /** The program named by a preset's configuration; the catch-all names none. */
  function Program(p: Preset): string
    requires !p.UnknownProgram?
  {
    match p
    case AssociatedTokenAccount => "ATokenGPvbdGVxr1b2hvZbsiqW5xWH25efTNsLJA8knL"
    case ComputeBudget => "ComputeBudget111111111111111111111111111111"
    case JupiterSwap => "JUP6LkbZbjS1jKKwapdHNy74zcZ3tLUZoi5QNyVTaV4"
    case StakePool => "SPoo1Ku8WFXoNDMHPsrGSTSG1Y47rzgn41SLUNakuHy"
    case System => "11111111111111111111111111111111"
  }

  function ConfigOf(p: Preset): Config {
    if p.UnknownProgram? then Config({}, true) else Config({Program(p)}, false)
  }

  ghost predicate Names(p: Preset, programId: string) {
    programId in ConfigOf(p).programs
  }

  /** The preset whose program this is, or the catch-all. */
  ghost function Owner(programId: string): (p: Preset)
    ensures p.UnknownProgram? || Names(p, programId)
  {
    if exists p :: Names(p, programId) then
      var p :| Names(p, programId);
      p
    else UnknownProgram
  }

  /** Length and last character tell the programs apart. */
  function Mark(p: Preset): (nat, char) {
    match p
    case AssociatedTokenAccount => (44, 'L')
    case ComputeBudget => (43, '1')
    case JupiterSwap => (43, '4')
    case StakePool => (43, 'y')
    case System => (32, '1')
    case UnknownProgram => (0, ' ')
  }

  lemma ProgramMark(p: Preset)
    requires !p.UnknownProgram?
    ensures Program(p) != "" && (|Program(p)|, Program(p)[|Program(p)| - 1]) == Mark(p)
  {
  }

  /** No program is named by two presets: the owner is the only one that names it. */
  lemma OwnerIsUnique(p: Preset, programId: string)
    requires !p.UnknownProgram?
    ensures Names(p, programId) <==> Owner(programId) == p
  {
    if Names(p, programId) {
      ProgramMark(p);
      ProgramMark(Owner(programId));
    }
  }

  lemma FolderOfCatchAll(p: Preset)
    ensures Folder(p) == UNKNOWN_PROGRAM <==> p.UnknownProgram?
  {
  }

  /** A listing of the presets folder, in any order and with any other files in it. */
  ghost predicate ListsPresets(presets: seq<Entry>, integrations: seq<Entry>) {
    forall n :: (Entry(n, true) in presets || Entry(n, true) in integrations) <==> exists p :: n == Folder(p)
  }

  /** The visualizers of the listed names, in list order. */
  function Visualizers(names: seq<string>, make: string -> Visualizer): (vs: seq<Visualizer>)
    ensures |vs| == |names| && forall i :: 0 <= i < |names| ==> vs[i] == make(names[i])
  {
    seq(|names|, i requires 0 <= i < |names| => make(names[i]))
  }

  /** Each folder stands for a visualizer with that preset's configuration. */
  ghost predicate IsPresetTable(make: string -> Visualizer) {
    forall p :: make(Folder(p)).config == Some(ConfigOf(p))
  }

  lemma HandlesIffOwner(make: string -> Visualizer, p: Preset, c: Context)
    requires IsPresetTable(make) && c.index < |c.instructions|
    ensures CanHandle(make(Folder(p)), c) <==>
            p == Owner(c.instructions[c.index].programId) || p.UnknownProgram?
  {
    if !p.UnknownProgram? {
      OwnerIsUnique(p, c.instructions[c.index].programId);
    }
  }

  /**
   Whatever order the folders are read in, an instruction goes to the preset that owns its
   program, or to the catch-all when none does.
   */
  lemma DispatchIgnoresDirectoryOrder(
    presets: seq<Entry>, integrations: seq<Entry>, make: string -> Visualizer, c: Context)
    requires ListsPresets(presets, integrations) && IsPresetTable(make) && c.index < |c.instructions|
    ensures IsChosen(Visualizers(CollectVisualizers(presets, integrations), make), c,
                     make(Folder(Owner(c.instructions[c.index].programId))))
  {
    var names := CollectVisualizers(presets, integrations);
    var vs := Visualizers(names, make);
    var owner := Owner(c.instructions[c.index].programId);
    CollectedNames(presets, integrations);
    assert Folder(owner) in names;
    var k := FirstIndex(names, Folder(owner));
    HandlesIffOwner(make, owner, c);
    forall n | 0 <= n < k ensures !CanHandle(vs[n], c) {
      assert names[n] in names;
      var p :| names[n] == Folder(p);
      FolderOfCatchAll(p);
      HandlesIffOwner(make, p, c);
    }
    assert vs[k] == make(Folder(owner));
  }

  lemma {:induction false} FirstIndex(names: seq<string>, name: string) returns (k: nat)
    requires name in names
    ensures k < |names| && names[k] == name && forall n :: 0 <= n < k ==> names[n] != name
  {
    k := 0;
    while names[k] != name
      invariant k < |names| && forall n :: 0 <= n < k ==> names[n] != name
      decreases |names| - k
    {
      assert names[k + 1..] == [] ==> name !in names;
      k := k + 1;
    }
  }

  /** The generated list always contains the catch-all. */
  lemma PresetsHaveCatchAll(presets: seq<Entry>, integrations: seq<Entry>, make: string -> Visualizer)
    requires ListsPresets(presets, integrations) && IsPresetTable(make)
    ensures HasCatchAll(Visualizers(CollectVisualizers(presets, integrations), make))
  {
    var names := CollectVisualizers(presets, integrations);
    CollectedNames(presets, integrations);
    assert Folder(UnknownProgram) in names;
    var k := FirstIndex(names, Folder(UnknownProgram));
    assert Visualizers(names, make)[k].config == Some(ConfigOf(UnknownProgram));
  }
}
