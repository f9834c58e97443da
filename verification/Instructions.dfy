/** Instruction decoding of legacy and V0 messages. */
module Instructions {
  import opened Wrappers
  import opened TokenAmount
  import opened Dispatch
  import opened Selections
  import P = Payload

  datatype Compiled = Compiled(programIdIndex: u8, accounts: seq<u8>, data: seq<u8>)

  type Fields = seq<P.AnnotatedField>

  // ----- legacy messages: every index must resolve

  function ResolveAccounts(keys: seq<string>, indices: seq<u8>): Outcome<seq<AccountMeta>> {
    if indices == [] then Returned([])
    else if indices[0] >= |keys| then Panicked
    else
      match ResolveAccounts(keys, indices[1..])
      case Panicked => Panicked
      case Returned(rest) => Returned([AccountMeta(keys[indices[0]], false, false)] + rest)
  }

  function Resolve(keys: seq<string>, ci: Compiled): Outcome<Instruction> {
    if ci.programIdIndex >= |keys| then Panicked
    else
      match ResolveAccounts(keys, ci.accounts)
      case Panicked => Panicked
      case Returned(accounts) => Returned(Instruction(keys[ci.programIdIndex], accounts, ci.data))
  }

  function ResolveAll(keys: seq<string>, cis: seq<Compiled>): Outcome<seq<Instruction>> {
    if cis == [] then Returned([])
    else
      match Resolve(keys, cis[0])
      case Panicked => Panicked
      case Returned(instruction) =>
        match ResolveAll(keys, cis[1..])
        case Panicked => Panicked
        case Returned(rest) => Returned([instruction] + rest)
  }

  /** Visualize from instruction `i` on; collecting stops at the first error. */
  function VisualizeFrom(vs: seq<Visualizer>, keys: seq<string>, instructions: seq<Instruction>, i: nat)
    : Outcome<Result<Fields, Error>>
    requires i <= |instructions|
    decreases |instructions| - i
  {
    if i == |instructions| then Returned(Ok([]))
    else if keys == [] then Panicked
    else
      match VisualizeWithAny(vs, Context(keys[0], i, instructions))
      case None => Panicked
      case Some(Err(e)) => Returned(Err(e))
      case Some(Ok(r)) =>
        match VisualizeFrom(vs, keys, instructions, i + 1)
        case Panicked => Panicked
        case Returned(Err(e)) => Returned(Err(e))
        case Returned(Ok(rest)) => Returned(Ok([r.field] + rest))
  }

  function DecodeInstructions(vs: seq<Visualizer>, keys: seq<string>, cis: seq<Compiled>)
    : Outcome<Result<Fields, Error>>
  {
    match ResolveAll(keys, cis)
    case Panicked => Panicked
    case Returned(instructions) =>
      match VisualizeFrom(vs, keys, instructions, 0)
      case Panicked => Panicked
      case Returned(Err(e)) => Returned(Err(e))
      case Returned(Ok(fields)) =>
        if |fields| != |instructions|
        then Returned(Err(InvariantViolation(|instructions|, |fields|)))
        else Returned(Ok(fields))
  }

  // ----- V0 messages: what does not resolve statically is left out

  function StaticAccounts(keys: seq<string>, indices: seq<u8>): seq<AccountMeta> {
    if indices == [] then []
    else if indices[0] < |keys| then [AccountMeta(keys[indices[0]], false, false)] + StaticAccounts(keys, indices[1..])
    else StaticAccounts(keys, indices[1..])
  }

  function StaticInstructions(keys: seq<string>, cis: seq<Compiled>): seq<Instruction> {
    if cis == [] then []
    else if cis[0].programIdIndex < |keys| then
      [Instruction(keys[cis[0].programIdIndex], StaticAccounts(keys, cis[0].accounts), cis[0].data)]
      + StaticInstructions(keys, cis[1..])
    else StaticInstructions(keys, cis[1..])
  }

  /** As `VisualizeFrom`, but an instruction that no visualizer handles is skipped. */
  function VisualizeSomeFrom(vs: seq<Visualizer>, sender: string, instructions: seq<Instruction>, i: nat)
    : Result<Fields, Error>
    requires i <= |instructions|
    decreases |instructions| - i
  {
    if i == |instructions| then Ok([])
    else
      match VisualizeWithAny(vs, Context(sender, i, instructions))
      case None => VisualizeSomeFrom(vs, sender, instructions, i + 1)
      case Some(Err(e)) => Err(e)
      case Some(Ok(r)) =>
        match VisualizeSomeFrom(vs, sender, instructions, i + 1)
        case Err(e) => Err(e)
        case Ok(rest) => Ok([r.field] + rest)
  }

  function DecodeV0Instructions(vs: seq<Visualizer>, keys: seq<string>, cis: seq<Compiled>): Result<Fields, Error> {
    var instructions := StaticInstructions(keys, cis);
    if keys == [] then Err(ParseError("V0 transaction has no account keys"))
    else VisualizeSomeFrom(vs, keys[0], instructions, 0)
  }

  // ----- resolvable instructions

  predicate InRange(keys: seq<string>, ci: Compiled) {
    ci.programIdIndex < |keys| && forall k :: 0 <= k < |ci.accounts| ==> ci.accounts[k] < |keys|
  }

  predicate AllInRange(keys: seq<string>, cis: seq<Compiled>) {
    forall i :: 0 <= i < |cis| ==> InRange(keys, cis[i])
  }

  function KeepInRange(keys: seq<string>, indices: seq<u8>): seq<u8> {
    if indices == [] then []
    else if indices[0] < |keys| then [indices[0]] + KeepInRange(keys, indices[1..])
    else KeepInRange(keys, indices[1..])
  }

  /** The message cut down to what its static keys resolve. */
  function Restrict(keys: seq<string>, cis: seq<Compiled>): seq<Compiled> {
    if cis == [] then []
    else if cis[0].programIdIndex < |keys| then
      [cis[0].(accounts := KeepInRange(keys, cis[0].accounts))] + Restrict(keys, cis[1..])
    else Restrict(keys, cis[1..])
  }

  lemma {:induction false} KeptAccounts(keys: seq<string>, indices: seq<u8>)
    ensures ResolveAccounts(keys, KeepInRange(keys, indices)) == Returned(StaticAccounts(keys, indices))
  {
    if indices != [] {
      KeptAccounts(keys, indices[1..]);
    }
  }

  lemma ResolveAllStep(keys: seq<string>, ci: Compiled, cis: seq<Compiled>, i: Instruction, ins: seq<Instruction>)
    requires Resolve(keys, ci) == Returned(i) && ResolveAll(keys, cis) == Returned(ins)
    ensures ResolveAll(keys, [ci] + cis) == Returned([i] + ins)
  {
    assert ([ci] + cis)[1..] == cis;
  }

  /** Resolving the cut-down message never fails and gives the V0 decoder's instructions. */
  lemma {:induction false} RestrictedResolves(keys: seq<string>, cis: seq<Compiled>)
    ensures ResolveAll(keys, Restrict(keys, cis)) == Returned(StaticInstructions(keys, cis))
  {
    if cis != [] {
      RestrictedResolves(keys, cis[1..]);
      if cis[0].programIdIndex < |keys| {
        KeptAccounts(keys, cis[0].accounts);
        var first := cis[0].(accounts := KeepInRange(keys, cis[0].accounts));
        var i := Instruction(keys[cis[0].programIdIndex], StaticAccounts(keys, cis[0].accounts), cis[0].data);
        ResolveAllStep(keys, first, Restrict(keys, cis[1..]), i, StaticInstructions(keys, cis[1..]));
      }
    }
  }

  lemma {:induction false} KeepAll(keys: seq<string>, indices: seq<u8>)
    requires forall k :: 0 <= k < |indices| ==> indices[k] < |keys|
    ensures KeepInRange(keys, indices) == indices
  {
    if indices != [] {
      KeepAll(keys, indices[1..]);
    }
  }

  lemma {:induction false} RestrictAll(keys: seq<string>, cis: seq<Compiled>)
    requires AllInRange(keys, cis)
    ensures Restrict(keys, cis) == cis
  {
    if cis != [] {
      KeepAll(keys, cis[0].accounts);
      assert AllInRange(keys, cis[1..]);
      RestrictAll(keys, cis[1..]);
    }
  }

  lemma {:induction false} AccountsPanicOutOfRange(keys: seq<string>, indices: seq<u8>)
    ensures ResolveAccounts(keys, indices).Panicked? <==> exists k :: 0 <= k < |indices| && indices[k] >= |keys|
  {
    if indices != [] {
      AccountsPanicOutOfRange(keys, indices[1..]);
      if k :| 0 <= k < |indices| && indices[k] >= |keys| {
        assert k == 0 || indices[1..][k - 1] >= |keys|;
      }
      if k :| 0 <= k < |indices[1..]| && indices[1..][k] >= |keys| {
        assert indices[k + 1] >= |keys|;
      }
    }
  }

  /** The legacy decoder resolves exactly the messages whose indices are all in range. */
  lemma {:induction false} ResolvesIffInRange(keys: seq<string>, cis: seq<Compiled>)
    ensures ResolveAll(keys, cis).Returned? <==> AllInRange(keys, cis)
  {
    if cis != [] {
      ResolvesIffInRange(keys, cis[1..]);
      AccountsPanicOutOfRange(keys, cis[0].accounts);
      assert Resolve(keys, cis[0]).Returned? <==> InRange(keys, cis[0]);
      assert AllInRange(keys, cis) <==> InRange(keys, cis[0]) && AllInRange(keys, cis[1..]) by {
        assert cis == [cis[0]] + cis[1..];
      }
    }
  }

  // ----- what the indices resolve to

  /** The accounts are those of the indices, one for one and in order. */
  lemma {:induction false} ResolvedAccounts(keys: seq<string>, indices: seq<u8>)
    requires ResolveAccounts(keys, indices).Returned?
    ensures var r := ResolveAccounts(keys, indices).value;
            |r| == |indices|
            && forall k :: 0 <= k < |r| ==> indices[k] < |keys| && r[k] == AccountMeta(keys[indices[k]], false, false)
  {
    if indices != [] {
      ResolvedAccounts(keys, indices[1..]);
    }
  }

  /** The instruction has the program, the accounts and the data that were compiled. */
  ghost predicate IsResolved(keys: seq<string>, ci: Compiled, i: Instruction) {
    && InRange(keys, ci)
    && i.programId == keys[ci.programIdIndex]
    && i.data == ci.data
    && |i.accounts| == |ci.accounts|
    && forall k :: 0 <= k < |i.accounts| ==> i.accounts[k] == AccountMeta(keys[ci.accounts[k]], false, false)
  }

  /** Resolving gives every instruction of the message, in order, with its own parts. */
  lemma {:induction false} ResolvedInOrder(keys: seq<string>, cis: seq<Compiled>)
    requires ResolveAll(keys, cis).Returned?
    ensures var r := ResolveAll(keys, cis).value;
            |r| == |cis| && forall k :: 0 <= k < |r| ==> IsResolved(keys, cis[k], r[k])
  {
    if cis != [] {
      ResolvedInOrder(keys, cis[1..]);
      ResolvedAccounts(keys, cis[0].accounts);
      var r, rest := ResolveAll(keys, cis).value, ResolveAll(keys, cis[1..]).value;
      forall k | 0 <= k < |r| ensures IsResolved(keys, cis[k], r[k]) {
        assert k > 0 ==> cis[k] == cis[1..][k - 1] && r[k] == rest[k - 1];
      }
    }
  }

  function IsStatic(keys: seq<string>): u8 -> bool {
    (i: u8) => i < |keys|
  }

  function MetaOf(keys: seq<string>): u8 -> AccountMeta {
    (i: u8) => AccountMeta(if i < |keys| then keys[i] else "", false, false)
  }

  /** The static indices filtered out and each replaced by the account of its key. */
  ghost predicate IsStaticAccounts(keys: seq<string>, indices: seq<u8>, accounts: seq<AccountMeta>) {
    IsFilterMap(accounts, indices, IsStatic(keys), MetaOf(keys))
  }

  /** The V0 accounts are those of the static indices, in order, and no others. */
  lemma {:induction false} StaticAccountsSelect(keys: seq<string>, indices: seq<u8>)
    ensures IsStaticAccounts(keys, indices, StaticAccounts(keys, indices))
  {
    if indices == [] {
      EmptyFilterMap(IsStatic(keys), MetaOf(keys));
    } else {
      StaticAccountsSelect(keys, indices[1..]);
      ConsFilterMap(StaticAccounts(keys, indices[1..]), indices, IsStatic(keys), MetaOf(keys));
      if indices[0] >= |keys| {
        assert [] + StaticAccounts(keys, indices[1..]) == StaticAccounts(keys, indices[1..]);
      }
    }
  }

  /** No other sequence of accounts is that. */
  lemma StaticAccountsAreUnique(keys: seq<string>, indices: seq<u8>, accounts: seq<AccountMeta>)
    ensures IsStaticAccounts(keys, indices, accounts) <==> accounts == StaticAccounts(keys, indices)
  {
    StaticAccountsSelect(keys, indices);
    if IsStaticAccounts(keys, indices, accounts) {
      FilterMapIsUnique(accounts, StaticAccounts(keys, indices), indices, IsStatic(keys), MetaOf(keys));
    }
  }

  lemma EmptyKeysResolveNothing(keys: seq<string>, cis: seq<Compiled>)
    requires keys == [] && cis != []
    ensures !AllInRange(keys, cis)
  {
    assert !InRange(keys, cis[0]);
  }

  // ----- with a catch-all both decoders visualize alike

  lemma {:induction false} SomeIsAll(vs: seq<Visualizer>, keys: seq<string>, instructions: seq<Instruction>, i: nat)
    requires HasCatchAll(vs) && keys != [] && i <= |instructions|
    ensures VisualizeFrom(vs, keys, instructions, i) == Returned(VisualizeSomeFrom(vs, keys[0], instructions, i))
    decreases |instructions| - i
  {
    if i < |instructions| {
      CatchAllHandles(vs, Context(keys[0], i, instructions));
      SomeIsAll(vs, keys, instructions, i + 1);
    }
  }

  lemma {:induction false} FieldPerInstruction(
    vs: seq<Visualizer>, keys: seq<string>, instructions: seq<Instruction>, i: nat)
    requires i <= |instructions|
    ensures var r := VisualizeFrom(vs, keys, instructions, i);
            r.Returned? && r.value.Ok? ==> |r.value.value| == |instructions| - i
    decreases |instructions| - i
  {
    if i < |instructions| {
      FieldPerInstruction(vs, keys, instructions, i + 1);
    }
  }

  /** The count check never fires: with all indices in range only visualizing matters. */
  lemma CountCheckIsDead(vs: seq<Visualizer>, keys: seq<string>, cis: seq<Compiled>)
    requires ResolveAll(keys, cis).Returned?
    ensures DecodeInstructions(vs, keys, cis) == VisualizeFrom(vs, keys, ResolveAll(keys, cis).value, 0)
  {
    var instructions := ResolveAll(keys, cis).value;
    FieldPerInstruction(vs, keys, instructions, 0);
  }

  /**
   The V0 decoder is the legacy decoder run on the statically resolvable part of the
   message.
   */
  lemma V0RefinesLegacy(vs: seq<Visualizer>, keys: seq<string>, cis: seq<Compiled>)
    requires HasCatchAll(vs) && keys != []
    ensures DecodeInstructions(vs, keys, Restrict(keys, cis)) == Returned(DecodeV0Instructions(vs, keys, cis))
  {
    RestrictedResolves(keys, cis);
    CountCheckIsDead(vs, keys, Restrict(keys, cis));
    SomeIsAll(vs, keys, StaticInstructions(keys, cis), 0);
  }

  /** With all indices static the decoders agree exactly when there is an account key. */
  lemma SameOnStaticMessages(vs: seq<Visualizer>, keys: seq<string>, cis: seq<Compiled>)
    requires HasCatchAll(vs) && AllInRange(keys, cis)
    ensures DecodeInstructions(vs, keys, cis) == Returned(DecodeV0Instructions(vs, keys, cis)) <==> keys != []
  {
    if keys != [] {
      RestrictAll(keys, cis);
      V0RefinesLegacy(vs, keys, cis);
    } else {
      if cis != [] {
        EmptyKeysResolveNothing(keys, cis);
      }
    }
  }

  /** Without account keys a V0 message is an error, even if it has no instructions. */
  lemma V0NeedsAccountKey(vs: seq<Visualizer>, cis: seq<Compiled>)
    ensures DecodeV0Instructions(vs, [], cis).Err? && DecodeV0Instructions(vs, [], cis).error.ParseError?
    ensures DecodeInstructions(vs, [], []) == Returned(Ok([]))
  {
  }

  // ----- positions of the resolvable instructions

  /** Original positions of the instructions that resolve, counting from `from`. */
  function Positions(keys: seq<string>, cis: seq<Compiled>, from: nat): seq<nat> {
    if cis == [] then []
    else if cis[0].programIdIndex < |keys| then [from] + Positions(keys, cis[1..], from + 1)
    else Positions(keys, cis[1..], from + 1)
  }

  lemma {:induction false} PositionsWithin(keys: seq<string>, cis: seq<Compiled>, from: nat)
    ensures StrictlyIncreasing(Positions(keys, cis, from))
    ensures forall a :: 0 <= a < |Positions(keys, cis, from)| ==> from <= Positions(keys, cis, from)[a] < from + |cis|
    ensures |Positions(keys, cis, from)| == |StaticInstructions(keys, cis)|
  {
    if cis != [] {
      PositionsWithin(keys, cis[1..], from + 1);
    }
  }

  /** The k-th V0 instruction is the resolvable part of the instruction at the k-th position. */
  lemma {:induction false} StaticAtPosition(keys: seq<string>, cis: seq<Compiled>, from: nat, k: nat)
    requires k < |Positions(keys, cis, from)|
    ensures |Positions(keys, cis, from)| == |StaticInstructions(keys, cis)|
    ensures from <= Positions(keys, cis, from)[k] < from + |cis|
    ensures var ci := cis[Positions(keys, cis, from)[k] - from];
            var i := StaticInstructions(keys, cis)[k];
            && ci.programIdIndex < |keys|
            && i.programId == keys[ci.programIdIndex]
            && i.data == ci.data
            && IsStaticAccounts(keys, ci.accounts, i.accounts)
  {
    PositionsWithin(keys, cis, from);
    StaticAccountsSelect(keys, cis[0].accounts);
    var here := cis[0].programIdIndex < |keys|;
    if !here || k > 0 {
      StaticAtPosition(keys, cis[1..], from + 1, if here then k - 1 else k);
    }
  }

  /** Every instruction with a static program has a position. */
  lemma {:induction false} PositionsCover(keys: seq<string>, cis: seq<Compiled>, from: nat, i: nat)
    requires i < |cis|
    ensures from + i in Positions(keys, cis, from) <==> cis[i].programIdIndex < |keys|
  {
    PositionsWithin(keys, cis[1..], from + 1);
    if i > 0 {
      PositionsCover(keys, cis[1..], from + 1, i - 1);
    }
  }

  // ----- what decoding returns

  /** The chosen visualizer of instruction `i` gives this field. */
  ghost predicate GivesField(vs: seq<Visualizer>, sender: string, ins: seq<Instruction>, i: nat, field: P.AnnotatedField) {
    var r := VisualizeWithAny(vs, Context(sender, i, ins));
    r.Some? && r.value.Ok? && r.value.value.field == field
  }

  ghost predicate Succeeds(vs: seq<Visualizer>, sender: string, ins: seq<Instruction>, i: nat) {
    var r := VisualizeWithAny(vs, Context(sender, i, ins));
    r.Some? && r.value.Ok?
  }

  /** Instruction `i` fails with `e` and all those from `from` on before it succeed. */
  ghost predicate FailsFirst(
    vs: seq<Visualizer>, sender: string, ins: seq<Instruction>, from: nat, i: nat, e: Error)
  {
    && VisualizeWithAny(vs, Context(sender, i, ins)) == Some(Err(e))
    && forall j :: from <= j < i ==> Succeeds(vs, sender, ins, j)
  }

  /** Fields of all instructions in order, or the error of the first that fails. */
  ghost predicate AllOrFirstError(
    vs: seq<Visualizer>, sender: string, ins: seq<Instruction>, from: nat, r: Result<Fields, Error>)
    requires from <= |ins|
  {
    match r
    case Ok(fields) =>
      |fields| == |ins| - from && forall k :: 0 <= k < |fields| ==> GivesField(vs, sender, ins, from + k, fields[k])
    case Err(e) => exists i :: from <= i < |ins| && FailsFirst(vs, sender, ins, from, i, e)
  }

  lemma OneMore(
    vs: seq<Visualizer>, sender: string, ins: seq<Instruction>, i: nat, field: P.AnnotatedField, rest: Result<Fields, Error>)
    requires i < |ins| && GivesField(vs, sender, ins, i, field) && AllOrFirstError(vs, sender, ins, i + 1, rest)
    ensures AllOrFirstError(vs, sender, ins, i, match rest case Ok(fs) => Ok([field] + fs) case Err(e) => Err(e))
  {
    if rest.Ok? {
      forall k | 0 <= k < |[field] + rest.value| ensures GivesField(vs, sender, ins, i + k, ([field] + rest.value)[k]) {
        if k > 0 {
          assert GivesField(vs, sender, ins, i + 1 + (k - 1), rest.value[k - 1]);
        }
      }
    } else {
      var k :| i + 1 <= k < |ins| && FailsFirst(vs, sender, ins, i + 1, k, rest.error);
      assert Succeeds(vs, sender, ins, i);
      assert FailsFirst(vs, sender, ins, i, k, rest.error);
    }
  }

  lemma {:induction false} VisualizesInOrder(vs: seq<Visualizer>, keys: seq<string>, ins: seq<Instruction>, i: nat)
    requires HasCatchAll(vs) && keys != [] && i <= |ins|
    ensures VisualizeFrom(vs, keys, ins, i).Returned?
    ensures AllOrFirstError(vs, keys[0], ins, i, VisualizeFrom(vs, keys, ins, i).value)
    decreases |ins| - i
  {
    if i < |ins| {
      CatchAllHandles(vs, Context(keys[0], i, ins));
      VisualizesInOrder(vs, keys, ins, i + 1);
      var one := VisualizeWithAny(vs, Context(keys[0], i, ins)).value;
      if one.Ok? {
        OneMore(vs, keys[0], ins, i, one.value.field, VisualizeFrom(vs, keys, ins, i + 1).value);
      } else {
        assert FailsFirst(vs, keys[0], ins, i, i, one.error);
      }
    }
  }

  /**
   With indices in range the decoder never panics: it returns one field per instruction in
   order, or the error of the first instruction whose visualizer fails.
   */
  lemma DecodesAllOrFirstError(vs: seq<Visualizer>, keys: seq<string>, cis: seq<Compiled>)
    requires HasCatchAll(vs) && AllInRange(keys, cis)
    ensures ResolveAll(keys, cis).Returned? && DecodeInstructions(vs, keys, cis).Returned?
    ensures var instructions := ResolveAll(keys, cis).value;
            AllOrFirstError(vs, if keys == [] then "" else keys[0], instructions, 0,
                            DecodeInstructions(vs, keys, cis).value)
  {
    ResolvesIffInRange(keys, cis);
    CountCheckIsDead(vs, keys, cis);
    if keys == [] {
      if cis != [] {
        EmptyKeysResolveNothing(keys, cis);
      }
    } else {
      VisualizesInOrder(vs, keys, ResolveAll(keys, cis).value, 0);
    }
  }

  /** The V0 decoder likewise, on the static instructions and with consecutive indices. */
  lemma V0DecodesAllOrFirstError(vs: seq<Visualizer>, keys: seq<string>, cis: seq<Compiled>)
    requires HasCatchAll(vs) && keys != []
    ensures AllOrFirstError(vs, keys[0], StaticInstructions(keys, cis), 0, DecodeV0Instructions(vs, keys, cis))
  {
    VisualizesInOrder(vs, keys, StaticInstructions(keys, cis), 0);
    SomeIsAll(vs, keys, StaticInstructions(keys, cis), 0);
  }

  // ----- directory order

  lemma {:induction false} SameVisualizing(
    vs: seq<Visualizer>, ws: seq<Visualizer>, keys: seq<string>, instructions: seq<Instruction>, i: nat)
    requires i <= |instructions|
    requires forall c: Context :: c.index < |c.instructions| ==> VisualizeWithAny(vs, c) == VisualizeWithAny(ws, c)
    ensures VisualizeFrom(vs, keys, instructions, i) == VisualizeFrom(ws, keys, instructions, i)
    decreases |instructions| - i
  {
    if i < |instructions| {
      SameVisualizing(vs, ws, keys, instructions, i + 1);
      if keys != [] {
        var c := Context(keys[0], i, instructions);
        assert VisualizeWithAny(vs, c) == VisualizeWithAny(ws, c);
      }
    }
  }

  lemma {:induction false} SameVisualizingSome(
    vs: seq<Visualizer>, ws: seq<Visualizer>, sender: string, instructions: seq<Instruction>, i: nat)
    requires i <= |instructions|
    requires forall c: Context :: c.index < |c.instructions| ==> VisualizeWithAny(vs, c) == VisualizeWithAny(ws, c)
    ensures VisualizeSomeFrom(vs, sender, instructions, i) == VisualizeSomeFrom(ws, sender, instructions, i)
    decreases |instructions| - i
  {
    if i < |instructions| {
      SameVisualizingSome(vs, ws, sender, instructions, i + 1);
      var c := Context(sender, i, instructions);
      assert VisualizeWithAny(vs, c) == VisualizeWithAny(ws, c);
    }
  }

  /** Neither decoder depends on the order in which the build read the preset folders. */
  lemma DecodingIgnoresDirectoryOrder(
    presets: seq<Entry>, integrations: seq<Entry>, presets': seq<Entry>, integrations': seq<Entry>,
    make: string -> Visualizer, keys: seq<string>, cis: seq<Compiled>)
    requires ListsPresets(presets, integrations) && ListsPresets(presets', integrations') && IsPresetTable(make)
    ensures DecodeInstructions(Visualizers(CollectVisualizers(presets, integrations), make), keys, cis)
         == DecodeInstructions(Visualizers(CollectVisualizers(presets', integrations'), make), keys, cis)
    ensures DecodeV0Instructions(Visualizers(CollectVisualizers(presets, integrations), make), keys, cis)
         == DecodeV0Instructions(Visualizers(CollectVisualizers(presets', integrations'), make), keys, cis)
  {
    var vs := Visualizers(CollectVisualizers(presets, integrations), make);
    var ws := Visualizers(CollectVisualizers(presets', integrations'), make);
    forall c: Context | c.index < |c.instructions| ensures VisualizeWithAny(vs, c) == VisualizeWithAny(ws, c) {
      var owner := make(Folder(Owner(c.instructions[c.index].programId)));
      DispatchIgnoresDirectoryOrder(presets, integrations, make, c);
      DispatchIgnoresDirectoryOrder(presets', integrations', make, c);
      ChosenDecides(vs, c, owner);
      ChosenDecides(ws, c, owner);
    }
    if ResolveAll(keys, cis).Returned? {
      SameVisualizing(vs, ws, keys, ResolveAll(keys, cis).value, 0);
    }
    if keys != [] {
      SameVisualizingSome(vs, ws, keys[0], StaticInstructions(keys, cis), 0);
    }
  }
}
