/**
 Universal router commands: recognising command bytes and pairing each command with an
 input. The call is taken as already decoded.
 */
module Uniswap {
  import opened Wrappers
  import opened Decimal
  import opened Hexadecimal
  import opened TokenAmount
  import P = Payload

  datatype Command =
    | V3SwapExactIn | V3SwapExactOut | Permit2TransferFrom | Permit2PermitBatch | Sweep | Transfer | PayPortion
    | V2SwapExactIn | V2SwapExactOut | Permit2Permit | WrapEth | UnwrapWeth | Permit2TransferFromBatch
    | BalanceCheckErc20
    | V4Swap | V3PositionManagerPermit | V3PositionManagerCall | V4InitializePool | V4PositionManagerCall
    | ExecuteSubPlan

  /** The discriminants. */
  function ToByte(c: Command): u8 {
    match c
    case V3SwapExactIn => 0x00
    case V3SwapExactOut => 0x01
    case Permit2TransferFrom => 0x02
    case Permit2PermitBatch => 0x03
    case Sweep => 0x04
    case Transfer => 0x05
    case PayPortion => 0x06
    case V2SwapExactIn => 0x08
    case V2SwapExactOut => 0x09
    case Permit2Permit => 0x0a
    case WrapEth => 0x0b
    case UnwrapWeth => 0x0c
    case Permit2TransferFromBatch => 0x0d
    case BalanceCheckErc20 => 0x0e
    case V4Swap => 0x10
    case V3PositionManagerPermit => 0x11
    case V3PositionManagerCall => 0x12
    case V4InitializePool => 0x13
    case V4PositionManagerCall => 0x14
    case ExecuteSubPlan => 0x21
  }

  function Name(c: Command): string {
    match c
    case V3SwapExactIn => "V3SwapExactIn"
    case V3SwapExactOut => "V3SwapExactOut"
    case Permit2TransferFrom => "Permit2TransferFrom"
    case Permit2PermitBatch => "Permit2PermitBatch"
    case Sweep => "Sweep"
    case Transfer => "Transfer"
    case PayPortion => "PayPortion"
    case V2SwapExactIn => "V2SwapExactIn"
    case V2SwapExactOut => "V2SwapExactOut"
    case Permit2Permit => "Permit2Permit"
    case WrapEth => "WrapEth"
    case UnwrapWeth => "UnwrapWeth"
    case Permit2TransferFromBatch => "Permit2TransferFromBatch"
    case BalanceCheckErc20 => "BalanceCheckErc20"
    case V4Swap => "V4Swap"
    case V3PositionManagerPermit => "V3PositionManagerPermit"
    case V3PositionManagerCall => "V3PositionManagerCall"
    case V4InitializePool => "V4InitializePool"
    case V4PositionManagerCall => "V4PositionManagerCall"
    case ExecuteSubPlan => "ExecuteSubPlan"
  }

  /** The command that a name is the name of. */
  function CommandNamed(s: string): Option<Command> {
    match |s|
    case 5 => if s == "Sweep" then Some(Sweep) else None
    case 6 => if s == "V4Swap" then Some(V4Swap) else None
    case 7 => if s == "WrapEth" then Some(WrapEth) else None
    case 8 => if s == "Transfer" then Some(Transfer) else None
    case 10 =>
      if s == "PayPortion" then Some(PayPortion)
      else if s == "UnwrapWeth" then Some(UnwrapWeth)
      else None
    case 13 =>
      if s == "V3SwapExactIn" then Some(V3SwapExactIn)
      else if s == "V2SwapExactIn" then Some(V2SwapExactIn)
      else if s == "Permit2Permit" then Some(Permit2Permit)
      else None
    case 14 =>
      if s == "V3SwapExactOut" then Some(V3SwapExactOut)
      else if s == "V2SwapExactOut" then Some(V2SwapExactOut)
      else if s == "ExecuteSubPlan" then Some(ExecuteSubPlan)
      else None
    case 16 => if s == "V4InitializePool" then Some(V4InitializePool) else None
    case 17 => if s == "BalanceCheckErc20" then Some(BalanceCheckErc20) else None
    case 18 => if s == "Permit2PermitBatch" then Some(Permit2PermitBatch) else None
    case 19 => if s == "Permit2TransferFrom" then Some(Permit2TransferFrom) else None
    case 21 =>
      if s == "V3PositionManagerCall" then Some(V3PositionManagerCall)
      else if s == "V4PositionManagerCall" then Some(V4PositionManagerCall)
      else None
    case 23 => if s == "V3PositionManagerPermit" then Some(V3PositionManagerPermit) else None
    case 24 => if s == "Permit2TransferFromBatch" then Some(Permit2TransferFromBatch) else None
    case _ => None
  }

  lemma NamedCommand(c: Command)
    ensures CommandNamed(Name(c)) == Some(c)
  {
  }

  /** `Command::try_from` */
  function FromByte(b: u8): Option<Command> {
    match b
    case 0x00 => Some(V3SwapExactIn)
    case 0x01 => Some(V3SwapExactOut)
    case 0x02 => Some(Permit2TransferFrom)
    case 0x03 => Some(Permit2PermitBatch)
    case 0x04 => Some(Sweep)
    case 0x05 => Some(Transfer)
    case 0x06 => Some(PayPortion)
    case 0x08 => Some(V2SwapExactIn)
    case 0x09 => Some(V2SwapExactOut)
    case 0x0a => Some(Permit2Permit)
    case 0x0b => Some(WrapEth)
    case 0x0c => Some(UnwrapWeth)
    case 0x0d => Some(Permit2TransferFromBatch)
    case 0x0e => Some(BalanceCheckErc20)
    case 0x10 => Some(V4Swap)
    case 0x11 => Some(V3PositionManagerPermit)
    case 0x12 => Some(V3PositionManagerCall)
    case 0x13 => Some(V4InitializePool)
    case 0x14 => Some(V4PositionManagerCall)
    case 0x21 => Some(ExecuteSubPlan)
    case _ => None
  }

  lemma FromByteInvertsToByte(b: u8, c: Command)
    ensures FromByte(b) == Some(c) <==> b == ToByte(c)
  {
  }

  // ----- map_commands

  /** Positions of the recognised bytes, in order. */
  function Positions(raw: seq<u8>): seq<nat> {
    if raw == [] then []
    else
      var n := |raw| - 1;
      Positions(raw[..n]) + if FromByte(raw[n]).Some? then [n] else []
  }

  /** The recognised commands are those at the positions. */
  ghost predicate IsMapped(raw: seq<u8>, mapped: seq<Command>) {
    && |mapped| == |Positions(raw)|
    && forall i :: 0 <= i < |mapped| ==>
         0 <= Positions(raw)[i] < |raw| && FromByte(raw[Positions(raw)[i]]) == Some(mapped[i])
  }

  lemma {:induction false} PositionsSpec(raw: seq<u8>)
    ensures forall i, j :: 0 <= i < j < |Positions(raw)| ==> Positions(raw)[i] < Positions(raw)[j]
    ensures forall i :: 0 <= i < |Positions(raw)| ==>
              Positions(raw)[i] < |raw| && FromByte(raw[Positions(raw)[i]]).Some?
    ensures forall p :: 0 <= p < |raw| && FromByte(raw[p]).Some? ==> p in Positions(raw)
  {
    if raw != [] {
      var n := |raw| - 1;
      PositionsSpec(raw[..n]);
      forall p | 0 <= p < |raw| && FromByte(raw[p]).Some? ensures p in Positions(raw) {
        if p < n {
          assert FromByte(raw[..n][p]).Some?;
          assert p in Positions(raw[..n]);
        }
      }
    }
  }

  method MapCommands(raw: seq<u8>) returns (out: seq<Command>)
    ensures IsMapped(raw, out)
  {
    out := [];
    for n := 0 to |raw|
      invariant IsMapped(raw[..n], out)
    {
      assert raw[..n + 1][..n] == raw[..n];
      PositionsSpec(raw[..n]);
      match FromByte(raw[n])
      case Some(cmd) => out := out + [cmd];
      case None =>
    }
    assert raw[..|raw|] == raw;
  }

  /**
   The i-th command shows input `i`. That is the input at its own position exactly when no
   unrecognised byte precedes it; otherwise the input belongs to an earlier byte.
   */
  lemma {:induction false} OwnInput(raw: seq<u8>, i: nat)
    requires i < |Positions(raw)|
    ensures Positions(raw)[i] < |raw|
    ensures i <= Positions(raw)[i]
    ensures Positions(raw)[i] == i <==> forall p :: 0 <= p < Positions(raw)[i] ==> FromByte(raw[p]).Some?
  {
    PositionsSpec(raw);
    var n := |raw| - 1;
    var init := Positions(raw[..n]);
    if i < |init| {
      OwnInput(raw[..n], i);
      assert forall p :: 0 <= p < n ==> raw[..n][p] == raw[p];
    } else {
      AllRecognised(raw[..n]);
      assert forall p :: 0 <= p < n ==> raw[..n][p] == raw[p];
    }
  }

  lemma {:induction false} AllRecognised(raw: seq<u8>)
    ensures |Positions(raw)| <= |raw|
    ensures |Positions(raw)| == |raw| <==> forall p :: 0 <= p < |raw| ==> FromByte(raw[p]).Some?
  {
    if raw != [] {
      var n := |raw| - 1;
      AllRecognised(raw[..n]);
      assert forall p :: 0 <= p < n ==> raw[..n][p] == raw[p];
    }
  }

  // ----- the visualizer

  function InputText(inputs: seq<seq<u8>>, i: nat): string {
    if i < |inputs| then "0x" + Hex(inputs[i]) else "None"
  }

  function CommandField(cmd: Command, i: nat, input: string): P.AnnotatedField {
    P.AnnotatedField(
      P.PreviewLayout(P.Common(Name(cmd) + " input: " + input, "Command " + Show(i + 1)),
                      P.PreviewBody(Some(Name(cmd)), Some("Input: " + input), None, None)),
      None, None)
  }

  function DeadlineField(deadline: string): P.AnnotatedField {
    P.AnnotatedField(P.TextV2(P.Common(deadline, "Deadline"), deadline), None, None)
  }

  const I64_MAX: nat := 0x7FFF_FFFF_FFFF_FFFF

  datatype Call = Call(commands: seq<u8>, inputs: seq<seq<u8>>, deadline: nat)

  /** The deadline shown: nothing for zero, and whatever the calendar library makes of others. */
  function ShownDeadline(deadline: nat, render: nat -> Option<string>): Option<string> {
    if deadline > 0 then render(deadline) else None
  }

  // ----- what a field shows, read back

  function Input(inputs: seq<seq<u8>>, k: nat): Option<seq<u8>> {
    if k < |inputs| then Some(inputs[k]) else None
  }

  /** The input that a text shows: the word for none, or hexadecimal behind its mark. */
  function ReadInput(text: string): Option<Option<seq<u8>>> {
    if text == "None" then Some(None)
    else if |text| < 2 || text[..2] != "0x" then None
    else
      var bytes :- ReadHex(text[2..]);
      Some(Some(bytes))
  }

  /** A preview titled with the command's name, numbered from one, whose subtitle reads as the input. */
  predicate ShowsCommand(a: P.AnnotatedField, cmd: Command, i: nat, input: Option<seq<u8>>) {
    && a.staticAnnotation.None? && a.dynamicAnnotation.None?
    && a.field.PreviewLayout?
    && var common, preview := a.field.common, a.field.preview;
    && |common.fieldLabel| > 8 && common.fieldLabel[..8] == "Command "
    && AllDigits(common.fieldLabel[8..]) && Value(common.fieldLabel[8..]) == i + 1
    && preview.title.Some? && CommandNamed(preview.title.value) == Some(cmd)
    && preview.condensed.None? && preview.expanded.None?
    && preview.subtitle.Some? && |preview.subtitle.value| >= 7 && preview.subtitle.value[..7] == "Input: "
    && var shown := preview.subtitle.value[7..];
    && ReadInput(shown) == Some(input)
    && common.fallbackText == preview.title.value + " input: " + shown
  }

  lemma InputReads(inputs: seq<seq<u8>>, k: nat)
    ensures ReadInput(InputText(inputs, k)) == Some(Input(inputs, k))
  {
    if k < |inputs| {
      var text := InputText(inputs, k);
      assert text[0] == '0' && text[..2] == "0x" && text[2..] == Hex(inputs[k]);
      ReadHexOfHex(inputs[k]);
    }
  }

  lemma CommandFieldShows(cmd: Command, i: nat, inputs: seq<seq<u8>>, k: nat)
    ensures ShowsCommand(CommandField(cmd, i, InputText(inputs, k)), cmd, i, Input(inputs, k))
  {
    var text := InputText(inputs, k);
    InputReads(inputs, k);
    NamedCommand(cmd);
    ValueOfShow(i + 1);
    var fieldLabel, subtitle := "Command " + Show(i + 1), "Input: " + text;
    assert fieldLabel[..8] == "Command " && fieldLabel[8..] == Show(i + 1);
    assert subtitle[..7] == "Input: " && subtitle[7..] == text;
  }

  /** One field per recognised command, then the deadline if there is one to show. */
  ghost predicate IsVisualization(
    call: Call, render: nat -> Option<string>, fields: Option<seq<P.AnnotatedField>>)
  {
    && (fields.None? <==> call.deadline >= 0x8000_0000_0000_0000)
    && (fields.Some? ==>
          var n := |Positions(call.commands)|;
          && n <= |fields.value| <= n + 1
          && (|fields.value| > n <==> call.deadline > 0 && render(call.deadline).Some?)
          && (|fields.value| > n ==>
                var shown := render(call.deadline).value;
                fields.value[n] == P.AnnotatedField(P.TextV2(P.Common(shown, "Deadline"), shown), None, None))
          && forall i :: 0 <= i < n ==> ShowsInput(call, fields.value[i], i, i))
  }

  /** The field is that of the i-th recognised command, with the k-th input. */
  predicate ShowsInput(call: Call, field: P.AnnotatedField, i: nat, k: nat)
    requires i < |Positions(call.commands)|
  {
    var at := Positions(call.commands)[i];
    && at < |call.commands|
    && FromByte(call.commands[at]).Some?
    && ShowsCommand(field, FromByte(call.commands[at]).value, i, Input(call.inputs, k))
  }

  method VisualizeCall(call: Call, render: nat -> Option<string>) returns (fields: Option<seq<P.AnnotatedField>>)
    ensures IsVisualization(call, render, fields)
  {
    if call.deadline > I64_MAX {
      return None;
    }
    var deadline := ShownDeadline(call.deadline, render);
    var mapped := MapCommands(call.commands);
    var detail: seq<P.AnnotatedField> := [];
    for i := 0 to |mapped|
      invariant |detail| == i
      invariant forall k :: 0 <= k < i ==> ShowsInput(call, detail[k], k, k)
    {
      CommandFieldShows(mapped[i], i, call.inputs, i);
      detail := detail + [CommandField(mapped[i], i, InputText(call.inputs, i))];
    }
    if deadline.Some? {
      detail := detail + [DeadlineField(deadline.value)];
    }
    return Some(detail);
  }

  // ----- whose input is shown

  /**
   The field of the i-th command shows the command's own input exactly when no unrecognised
   byte precedes the command, or the input it shows instead happens to be the same.
   */
  lemma FieldShowsOwnInput(
    call: Call, render: nat -> Option<string>, fields: Option<seq<P.AnnotatedField>>, i: nat)
    requires IsVisualization(call, render, fields) && fields.Some?
    requires i < |Positions(call.commands)| && |call.inputs| == |call.commands|
    ensures var at := Positions(call.commands)[i];
            && i <= at < |call.inputs|
            && (ShowsInput(call, fields.value[i], i, at) <==>
                  (forall p :: 0 <= p < at ==> FromByte(call.commands[p]).Some?) || call.inputs[i] == call.inputs[at])
  {
    OwnInput(call.commands, i);
    assert ShowsInput(call, fields.value[i], i, i);
  }

  /** Behind an unknown byte a command shows the unknown byte's input in place of its own. */
  lemma UnknownByteShiftsInputs(
    unknown: u8, cmd: Command, first: seq<u8>, second: seq<u8>, deadline: nat,
    render: nat -> Option<string>, fields: Option<seq<P.AnnotatedField>>)
    requires FromByte(unknown).None? && deadline <= I64_MAX
    requires IsVisualization(Call([unknown, ToByte(cmd)], [first, second], deadline), render, fields)
    ensures fields.Some? && fields.value != []
    ensures ShowsCommand(fields.value[0], cmd, 0, Some(first))
    ensures ShowsCommand(fields.value[0], cmd, 0, Some(second)) <==> first == second
  {
    var raw: seq<u8> := [unknown, ToByte(cmd)];
    assert raw[..1][..0] == [];
    assert Positions(raw[..1]) == [];
    FromByteInvertsToByte(ToByte(cmd), cmd);
    assert Positions(raw) == [1];
    assert ShowsInput(Call(raw, [first, second], deadline), fields.value[0], 0, 0);
  }
}
