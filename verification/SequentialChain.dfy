/**
 The sequential chain of `crates/lc-chains/src/sequential_chain.rs` without memory, and the
 default token stream of `crates/lc-chains/src/base.rs`. A sub-chain is a pair of functions
 of its inputs. A key mapping lists its pairs in the order the hash map yields them, which
 is the same for every loop over the same map.
 */
module SequentialChains {
  import opened Common

  type Key = string

  /** A JSON value: a string, or anything else. */
  datatype Value = Str(s: string) | Other(json: string)

  type State = map<Key, Value>

  datatype ChainError =
    | MissingInput(step: nat, chainKey: Key, globalKey: Key)
    | OutputError(step: nat, chainKey: Key)
    | ExecutionError(message: string)
    | Nested(step: nat, source: ChainError)

  type Tokens = seq<Result<string, ChainError>>

  datatype Chain = Chain(
    outputKeys: seq<Key>,
    invoke: State -> Result<State, ChainError>,
    stream: State -> Result<Tokens, ChainError>)

  /** Pairs of a sub-chain key and the global key it is mapped from or to. */
  type Mapping = seq<(Key, Key)>

  datatype ChainStep = ChainStep(chain: Chain, inputMapping: Mapping, outputMapping: Mapping)

  // ---------- What one step reads and writes ----------

  function Gather(mapping: Mapping, state: State, step: nat): Result<State, ChainError> {
    if mapping == [] then Ok(map[])
    else
      var front, (chainKey, globalKey) := mapping[..|mapping| - 1], mapping[|mapping| - 1];
      match Gather(front, state, step)
      case Err(e) => Err(e)
      case Ok(inputs) =>
        if globalKey in state then Ok(inputs[chainKey := state[globalKey]])
        else Err(MissingInput(step, chainKey, globalKey))
  }

  function Store(mapping: Mapping, output: State, into: State, step: nat): Result<State, ChainError> {
    if mapping == [] then Ok(into)
    else
      var front, (chainKey, globalKey) := mapping[..|mapping| - 1], mapping[|mapping| - 1];
      match Store(front, output, into, step)
      case Err(e) => Err(e)
      case Ok(stored) =>
        if chainKey in output then Ok(stored[globalKey := output[chainKey]])
        else Err(OutputError(step, chainKey))
  }

  function Wrap<T>(r: Result<T, ChainError>, step: nat): Result<T, ChainError> {
    match r
    case Ok(v) => Ok(v)
    case Err(e) => Err(Nested(step, e))
  }

  function Then<T, U>(r: Result<T, ChainError>, f: T -> Result<U, ChainError>): Result<U, ChainError> {
    match r
    case Ok(v) => f(v)
    case Err(e) => Err(e)
  }

  /** One invoked step: the new state and the new final output. */
  function InvokeStep(s: ChainStep, step: nat, state: State, final: State): Result<(State, State), ChainError> {
    match Gather(s.inputMapping, state, step)
    case Err(e) => Err(e)
    case Ok(inputs) =>
      match Wrap(s.chain.invoke(inputs), step)
      case Err(e) => Err(e)
      case Ok(output) =>
        match (Store(s.outputMapping, output, state, step), Store(s.outputMapping, output, final, step))
        case (Ok(state'), Ok(final')) => Ok((state', final'))
        case (Err(e), _) => Err(e)
        case (_, Err(e)) => Err(e)
  }

  function RunFrom(steps: seq<ChainStep>, k: nat, state: State, final: State): Result<State, ChainError>
    requires k <= |steps|
    decreases |steps| - k
  {
    if k == |steps| then Ok(final)
    else
      match InvokeStep(steps[k], k, state, final)
      case Err(e) => Err(e)
      case Ok(next) => RunFrom(steps, k + 1, next.0, next.1)
  }

  /** The text of a token stream, or its first error. */
  function Text(tokens: Tokens): Result<string, ChainError> {
    if tokens == [] then Ok("")
    else
      var last := tokens[|tokens| - 1];
      match Text(tokens[..|tokens| - 1])
      case Err(e) => Err(e)
      case Ok(text) =>
        match last
        case Ok(token) => Ok(text + token)
        case Err(e) => Err(e)
  }

  function StreamedText(chain: Chain, inputs: State): Result<string, ChainError> {
    match chain.stream(inputs)
    case Err(e) => Err(e)
    case Ok(tokens) => Text(tokens)
  }

  /** A step with one mapped output that its chain declares is streamed forward. */
  predicate Streamable(s: ChainStep) {
    |s.outputMapping| == 1 && s.outputMapping[0].0 in s.chain.outputKeys
  }

  /** One intermediate step of the streaming executor. */
  function ForwardStep(s: ChainStep, step: nat, state: State): Result<State, ChainError> {
    match Gather(s.inputMapping, state, step)
    case Err(e) => Err(e)
    case Ok(inputs) =>
      if Streamable(s) then
        match Wrap(StreamedText(s.chain, inputs), step)
        case Err(e) => Err(e)
        case Ok(text) => Ok(state[s.outputMapping[0].1 := Str(text)])
      else
        match Wrap(s.chain.invoke(inputs), step)
        case Err(e) => Err(e)
        case Ok(output) => Store(s.outputMapping, output, state, step)
  }

  /** The declared-output check and the stream of the last step. */
  function LastStream(s: ChainStep, step: nat, state: State): Result<Tokens, ChainError> {
    match Gather(s.inputMapping, state, step)
    case Err(e) => Err(e)
    case Ok(inputs) =>
      match FirstUndeclared(s.outputMapping, s.chain.outputKeys)
      case Some(chainKey) => Err(OutputError(step, chainKey))
      case None => s.chain.stream(inputs)
  }

  function FirstUndeclared(mapping: Mapping, declared: seq<Key>): (r: Option<Key>)
    ensures r.None? <==> forall p :: p in mapping ==> p.0 in declared
  {
    if mapping == [] then None
    else if mapping[0].0 !in declared then Some(mapping[0].0)
    else FirstUndeclared(mapping[1..], declared)
  }

  function StreamFrom(steps: seq<ChainStep>, k: nat, state: State): Result<Tokens, ChainError>
    requires k < |steps|
    decreases |steps| - k
  {
    if k == |steps| - 1 then LastStream(steps[k], k, state)
    else
      match ForwardStep(steps[k], k, state)
      case Err(e) => Err(e)
      case Ok(next) => StreamFrom(steps, k + 1, next)
  }

  // ---------- The executors ----------

  datatype SequentialChain = SequentialChain(chains: seq<ChainStep>)
  {
    function Run(inputs: State): Result<State, ChainError> {
      RunFrom(chains, 0, inputs, map[])
    }

    function Stream(inputs: State): Result<Tokens, ChainError> {
      if chains == [] then Err(ExecutionError("SequentialChain has no chains")) else StreamFrom(chains, 0, inputs)
    }

    method GatherInputs(step: nat, state: State) returns (r: Result<State, ChainError>)
      requires step < |chains|
      ensures r == Gather(chains[step].inputMapping, state, step)
      ensures GatherOutcome(chains[step], step, state, r)
    {
      GatheredExactly(chains[step].inputMapping, state, step);
      var mapping := chains[step].inputMapping;
      var inputs: State := map[];
      for i := 0 to |mapping|
        invariant Gather(mapping[..i], state, step) == Ok(inputs)
      {
        var (chainKey, globalKey) := mapping[i];
        assert mapping[..i + 1][..i] == mapping[..i];
        if globalKey in state {
          inputs := inputs[chainKey := state[globalKey]];
        } else {
          GatherFails(mapping, state, step, i + 1);
          return Err(MissingInput(step, chainKey, globalKey));
        }
      }
      assert mapping[..|mapping|] == mapping;
      r := Ok(inputs);
    }

    method StoreOutputs(step: nat, output: State, state: State, final: State)
      returns (r: Result<(State, State), ChainError>)
      requires step < |chains|
      ensures var mapping := chains[step].outputMapping;
              match r
              case Ok(both) => Store(mapping, output, state, step) == Ok(both.0) &&
                               Store(mapping, output, final, step) == Ok(both.1)
              case Err(e) => Store(mapping, output, state, step) == Err(e) == Store(mapping, output, final, step)
      ensures StoreOutcome(chains[step], step, output, state, final, r)
    {
      StoredExactly(chains[step].outputMapping, output, state, step);
      StoredExactly(chains[step].outputMapping, output, final, step);
      var mapping := chains[step].outputMapping;
      var state', final' := state, final;
      for i := 0 to |mapping|
        invariant Store(mapping[..i], output, state, step) == Ok(state')
        invariant Store(mapping[..i], output, final, step) == Ok(final')
      {
        var (chainKey, globalKey) := mapping[i];
        assert mapping[..i + 1][..i] == mapping[..i];
        if chainKey in output {
          state' := state'[globalKey := output[chainKey]];
          final' := final'[globalKey := output[chainKey]];
        } else {
          StoreFails(mapping, output, state, step, i + 1);
          StoreFails(mapping, output, final, step, i + 1);
          return Err(OutputError(step, chainKey));
        }
      }
      assert mapping[..|mapping|] == mapping;
      r := Ok((state', final'));
    }

    method RunSteps(inputs: State) returns (r: Result<State, ChainError>)
      ensures r == Run(inputs) && Outcome(chains, inputs, r)
    {
      r := RunLoop(inputs);
      RunIsExecution(this, inputs, r);
    }

    /** The loop over the steps. */
    method RunLoop(inputs: State) returns (r: Result<State, ChainError>)
      ensures r == Run(inputs)
    {
      var currentState := inputs;
      var finalOutput: State := map[];
      for k := 0 to |chains|
        invariant RunFrom(chains, k, currentState, finalOutput) == Run(inputs)
      {
        var gathered := GatherInputs(k, currentState);
        if gathered.Err? {
          return Err(gathered.error);
        }
        var invoked := chains[k].chain.invoke(gathered.value);
        if invoked.Err? {
          return Err(Nested(k, invoked.error));
        }
        var stored := StoreOutputs(k, invoked.value, currentState, finalOutput);
        if stored.Err? {
          return Err(stored.error);
        }
        currentState, finalOutput := stored.value.0, stored.value.1;
      }
      r := Ok(finalOutput);
    }

    method StreamSteps(inputs: State) returns (r: Result<Tokens, ChainError>)
      ensures r == Stream(inputs) && StreamOutcome(chains, inputs, r)
    {
      r := StreamLoop(inputs);
      StreamIsExecution(this, inputs);
    }

    /** The loop over the steps that are forwarded, and the stream of the last. */
    method StreamLoop(inputs: State) returns (r: Result<Tokens, ChainError>)
      ensures r == Stream(inputs)
    {
      if chains == [] {
        return Err(ExecutionError("SequentialChain has no chains"));
      }
      var currentState := inputs;
      var lastIdx := |chains| - 1;
      for k := 0 to lastIdx
        invariant StreamFrom(chains, k, currentState) == Stream(inputs)
      {
        var gathered := GatherInputs(k, currentState);
        if gathered.Err? {
          return Err(gathered.error);
        }
        var mapping := chains[k].outputMapping;
        if |mapping| == 1 && mapping[0].0 in chains[k].chain.outputKeys {
          var tokens := chains[k].chain.stream(gathered.value);
          if tokens.Err? {
            return Err(Nested(k, tokens.error));
          }
          var text := DrainTokens(tokens.value);
          if text.Err? {
            return Err(Nested(k, text.error));
          }
          currentState := currentState[chains[k].outputMapping[0].1 := Str(text.value)];
        } else {
          var invoked := chains[k].chain.invoke(gathered.value);
          if invoked.Err? {
            return Err(Nested(k, invoked.error));
          }
          var stored := StoreOutputs(k, invoked.value, currentState, map[]);
          if stored.Err? {
            return Err(stored.error);
          }
          currentState := stored.value.0;
        }
      }
      var gathered := GatherInputs(lastIdx, currentState);
      if gathered.Err? {
        return Err(gathered.error);
      }
      var undeclared := FirstUndeclared(chains[lastIdx].outputMapping, chains[lastIdx].chain.outputKeys);
      if undeclared.Some? {
        return Err(OutputError(lastIdx, undeclared.value));
      }
      r := chains[lastIdx].chain.stream(gathered.value);
    }

    /** The global keys the caller must supply: read by some step and produced by none. */
    method InputKeys() returns (keys: seq<Key>)
      ensures Distinct(keys)
      ensures forall g :: g in keys <==> External(chains, g)
    {
      var produced: set<Key> := {};
      for k := 0 to |chains|
        invariant forall g :: g in produced <==> exists j :: 0 <= j < k && Writes(chains[j], g)
      {
        produced := produced + set p | p in chains[k].outputMapping :: p.1;
      }
      keys := [];
      for k := 0 to |chains|
        invariant Distinct(keys)
        invariant forall g :: g in keys <==> g !in produced && exists j :: 0 <= j < k && Reads(chains[j], g)
      {
        var mapping := chains[k].inputMapping;
        ghost var before := keys;
        for i := 0 to |mapping|
          invariant Distinct(keys)
          invariant forall g :: g in keys <==>
                      g in before || (g !in produced && exists p :: p in mapping[..i] && p.1 == g)
        {
          assert mapping[..i + 1] == mapping[..i] + [mapping[i]];
          if mapping[i].1 !in produced && mapping[i].1 !in keys {
            keys := keys + [mapping[i].1];
          }
        }
        assert mapping[..|mapping|] == mapping;
        assert forall g :: Reads(chains[k], g) <==> exists p :: p in mapping && p.1 == g;
      }
    }
  }

  method DrainTokens(tokens: Tokens) returns (r: Result<string, ChainError>)
    ensures r == Text(tokens)
  {
    var text := "";
    for i := 0 to |tokens|
      invariant Text(tokens[..i]) == Ok(text)
    {
      assert tokens[..i + 1][..i] == tokens[..i];
      match tokens[i]
      case Ok(token) => text := text + token;
      case Err(e) =>
        TextFails(tokens, i + 1);
        return Err(e);
    }
    assert tokens[..|tokens|] == tokens;
    r := Ok(text);
  }

  /** An error in a prefix is the error of the whole. */
  lemma {:induction false} GatherFails(mapping: Mapping, state: State, step: nat, n: nat)
    requires n <= |mapping| && Gather(mapping[..n], state, step).Err?
    ensures Gather(mapping, state, step) == Gather(mapping[..n], state, step)
    decreases |mapping|
  {
    if n == |mapping| {
      assert mapping[..n] == mapping;
    } else {
      var front := mapping[..|mapping| - 1];
      assert front[..n] == mapping[..n];
      GatherFails(front, state, step, n);
    }
  }

  lemma {:induction false} StoreFails(mapping: Mapping, output: State, into: State, step: nat, n: nat)
    requires n <= |mapping| && Store(mapping[..n], output, into, step).Err?
    ensures Store(mapping, output, into, step) == Store(mapping[..n], output, into, step)
    decreases |mapping|
  {
    if n == |mapping| {
      assert mapping[..n] == mapping;
    } else {
      var front := mapping[..|mapping| - 1];
      assert front[..n] == mapping[..n];
      StoreFails(front, output, into, step, n);
    }
  }

  lemma {:induction false} TextFails(tokens: Tokens, n: nat)
    requires n <= |tokens| && Text(tokens[..n]).Err?
    ensures Text(tokens) == Text(tokens[..n])
    decreases |tokens|
  {
    if n == |tokens| {
      assert tokens[..n] == tokens;
    } else {
      var front := tokens[..|tokens| - 1];
      assert front[..n] == tokens[..n];
      TextFails(front, n);
    }
  }

  // ---------- Executions, told from the states between the steps ----------

  /** The first pair whose global key is missing. */
  predicate FirstMissing(mapping: Mapping, state: State, i: int) {
    0 <= i < |mapping| && mapping[i].1 !in state && forall j :: 0 <= j < i ==> mapping[j].1 in state
  }

  /** The first pair whose chain key is missing. */
  predicate FirstAbsent(mapping: Mapping, output: State, i: int) {
    0 <= i < |mapping| && mapping[i].0 !in output && forall j :: 0 <= j < i ==> mapping[j].0 in output
  }

  /** No later pair has the same chain key. */
  predicate LastOfChainKey(mapping: Mapping, i: int) {
    0 <= i < |mapping| && forall j :: i < j < |mapping| ==> mapping[j].0 != mapping[i].0
  }

  /** No later pair has the same global key. */
  predicate LastOfGlobalKey(mapping: Mapping, i: int) {
    0 <= i < |mapping| && forall j :: i < j < |mapping| ==> mapping[j].1 != mapping[i].1
  }

  /** `given` holds the chain keys of the mapping and no others, each with what the state has under its global key. */
  ghost predicate HandsOver(mapping: Mapping, state: State, given: State) {
    && (forall p :: p in mapping ==> p.1 in state && p.0 in given)
    && (forall k :: k in given ==> exists p :: p in mapping && p.0 == k)
    && (forall i :: LastOfChainKey(mapping, i) ==>
          mapping[i].0 in given && mapping[i].1 in state && given[mapping[i].0] == state[mapping[i].1])
  }

  /** `after` is `before` with each global key of the mapping set to the output under its chain key. */
  ghost predicate Renames(mapping: Mapping, output: State, before: State, after: State) {
    && (forall p :: p in mapping ==> p.0 in output)
    && (forall g :: g in after <==> g in before || exists p :: p in mapping && p.1 == g)
    && (forall i :: LastOfGlobalKey(mapping, i) ==>
          mapping[i].0 in output && mapping[i].1 in after && after[mapping[i].1] == output[mapping[i].0])
    && (forall g :: g in before && (forall p :: p in mapping ==> p.1 != g) ==> g in after && after[g] == before[g])
  }

  lemma {:induction false} LastIsThere(mapping: Mapping, n: nat) returns (i: int, j: int)
    requires n < |mapping|
    ensures LastOfChainKey(mapping, i) && mapping[i].0 == mapping[n].0
    ensures LastOfGlobalKey(mapping, j) && mapping[j].1 == mapping[n].1
    decreases |mapping| - n
  {
    i, j := n, n;
    if m :| n < m < |mapping| && mapping[m].0 == mapping[n].0 {
      var k;
      i, k := LastIsThere(mapping, m);
    }
    if m :| n < m < |mapping| && mapping[m].1 == mapping[n].1 {
      var k;
      k, j := LastIsThere(mapping, m);
    }
  }

  lemma LastOfLonger(front: Mapping, last: (Key, Key), i: int)
    ensures LastOfChainKey(front + [last], i) <==>
            i == |front| || (LastOfChainKey(front, i) && front[i].0 != last.0)
    ensures LastOfGlobalKey(front + [last], i) <==>
            i == |front| || (LastOfGlobalKey(front, i) && front[i].1 != last.1)
  {
    var mapping := front + [last];
    if 0 <= i < |front| {
      assert mapping[|front|] == last;
      assert forall j :: i < j < |front| ==> mapping[j] == front[j];
    }
  }

  lemma HandsOverMore(front: Mapping, last: (Key, Key), state: State, given: State)
    requires HandsOver(front, state, given) && last.1 in state
    ensures HandsOver(front + [last], state, given[last.0 := state[last.1]])
  {
    var mapping, more := front + [last], given[last.0 := state[last.1]];
    assert forall p :: p in mapping <==> p in front || p == last;
    forall i | LastOfChainKey(mapping, i)
      ensures mapping[i].0 in more && mapping[i].1 in state && more[mapping[i].0] == state[mapping[i].1]
    {
      LastOfLonger(front, last, i);
    }
  }

  /** What a step hands to its chain: exactly the mapped keys with their values, or the first that is missing. */
  lemma {:induction false} GatheredExactly(mapping: Mapping, state: State, step: nat)
    ensures match Gather(mapping, state, step)
            case Ok(given) => HandsOver(mapping, state, given)
            case Err(e) => exists i ::
              FirstMissing(mapping, state, i) && e == MissingInput(step, mapping[i].0, mapping[i].1)
  {
    if mapping != [] {
      var front, last := mapping[..|mapping| - 1], mapping[|mapping| - 1];
      assert mapping == front + [last];
      GatheredExactly(front, state, step);
      match Gather(front, state, step)
      case Err(e) =>
        var i :| FirstMissing(front, state, i) && e == MissingInput(step, front[i].0, front[i].1);
        assert FirstMissing(mapping, state, i);
      case Ok(given) =>
        if last.1 in state {
          HandsOverMore(front, last, state, given);
        } else {
          assert forall j :: 0 <= j < |front| ==> mapping[j] in front;
          assert FirstMissing(mapping, state, |front|);
        }
    }
  }

  lemma RenamesMore(front: Mapping, last: (Key, Key), output: State, before: State, after: State)
    requires Renames(front, output, before, after) && last.0 in output
    ensures Renames(front + [last], output, before, after[last.1 := output[last.0]])
  {
    var mapping, more := front + [last], after[last.1 := output[last.0]];
    assert forall p :: p in mapping <==> p in front || p == last;
    forall i | LastOfGlobalKey(mapping, i)
      ensures mapping[i].0 in output && mapping[i].1 in more && more[mapping[i].1] == output[mapping[i].0]
    {
      LastOfLonger(front, last, i);
    }
  }

  /** What a step writes: exactly the mapped outputs under their global keys, or the first that is missing. */
  lemma {:induction false} StoredExactly(mapping: Mapping, output: State, into: State, step: nat)
    ensures match Store(mapping, output, into, step)
            case Ok(after) => Renames(mapping, output, into, after)
            case Err(e) => exists i :: FirstAbsent(mapping, output, i) && e == OutputError(step, mapping[i].0)
  {
    if mapping != [] {
      var front, last := mapping[..|mapping| - 1], mapping[|mapping| - 1];
      assert mapping == front + [last];
      StoredExactly(front, output, into, step);
      match Store(front, output, into, step)
      case Err(e) =>
        var i :| FirstAbsent(front, output, i) && e == OutputError(step, front[i].0);
        assert FirstAbsent(mapping, output, i);
      case Ok(after) =>
        if last.0 in output {
          RenamesMore(front, last, output, into, after);
        } else {
          assert forall j :: 0 <= j < |front| ==> mapping[j] in front;
          assert FirstAbsent(mapping, output, |front|);
        }
    }
  }

  /** An invoked step: its chain is given what is mapped, and what it answers is written where that is mapped. */
  ghost predicate Invoked(s: ChainStep, before: State, after: State) {
    exists given, output :: InvokedWith(s, before, given, output, after)
  }

  ghost predicate InvokedWith(s: ChainStep, before: State, given: State, output: State, after: State) {
    && HandsOver(s.inputMapping, before, given) && s.chain.invoke(given) == Ok(output)
    && Renames(s.outputMapping, output, before, after)
  }

  /** The step fails before it writes: an input is missing, the chain fails, or an output is missing. */
  ghost predicate InvokeFails(s: ChainStep, step: nat, before: State, e: ChainError) {
    || InputFails(s, step, before, e)
    || (exists given, cause :: HandsOver(s.inputMapping, before, given) && s.chain.invoke(given) == Err(cause) &&
                               e == Nested(step, cause))
    || (exists given, output, i ::
          && HandsOver(s.inputMapping, before, given) && s.chain.invoke(given) == Ok(output)
          && FirstAbsent(s.outputMapping, output, i) && e == OutputError(step, s.outputMapping[i].0))
  }

  ghost predicate InputFails(s: ChainStep, step: nat, before: State, e: ChainError) {
    exists i ::
      && FirstMissing(s.inputMapping, before, i)
      && e == MissingInput(step, s.inputMapping[i].0, s.inputMapping[i].1)
  }

  /** What is handed to a step's chain, or the first of its inputs that is missing. */
  ghost predicate GatherOutcome(s: ChainStep, step: nat, state: State, r: Result<State, ChainError>) {
    match r
    case Ok(given) => HandsOver(s.inputMapping, state, given)
    case Err(e) => InputFails(s, step, state, e)
  }

  /** State and final output with the step's outputs written into both, or the first of them that is missing. */
  ghost predicate StoreOutcome(s: ChainStep, step: nat, output: State, state: State, final: State,
                               r: Result<(State, State), ChainError>) {
    match r
    case Ok(both) => Renames(s.outputMapping, output, state, both.0) && Renames(s.outputMapping, output, final, both.1)
    case Err(e) => exists i ::
      FirstAbsent(s.outputMapping, output, i) && e == OutputError(step, s.outputMapping[i].0)
  }

  /** The states around the first `k` steps. */
  ghost predicate Executes(steps: seq<ChainStep>, k: nat, states: seq<State>) {
    && k <= |steps| && |states| == k + 1
    && forall i :: 0 <= i < k ==> Invoked(steps[i], states[i], states[i + 1])
  }

  /** `final` is what the first `k` steps wrote, with the values it has by now. */
  ghost predicate Written(steps: seq<ChainStep>, k: nat, state: State, final: State)
    requires k <= |steps|
  {
    && (forall g :: g in final <==> exists j :: 0 <= j < k && Writes(steps[j], g))
    && (forall g :: g in final ==> g in state && final[g] == state[g])
  }

  /** What a run comes to, told from the states between its steps. */
  ghost predicate Outcome(steps: seq<ChainStep>, inputs: State, r: Result<State, ChainError>) {
    match r
    case Ok(final) => exists states ::
      Executes(steps, |steps|, states) && states[0] == inputs && Written(steps, |steps|, states[|steps|], final)
    case Err(e) => exists k: nat, states ::
      k < |steps| && Executes(steps, k, states) && states[0] == inputs && InvokeFails(steps[k], k, states[k], e)
  }

  lemma WritesAreMapped(s: ChainStep, output: State, before: State, after: State, g: Key)
    requires Renames(s.outputMapping, output, before, after)
    ensures g in after <==> g in before || Writes(s, g)
    ensures !Writes(s, g) && g in before ==> after[g] == before[g]
    ensures Writes(s, g) ==> exists i :: LastOfGlobalKey(s.outputMapping, i) && s.outputMapping[i].1 == g
  {
    if Writes(s, g) {
      var n :| 0 <= n < |s.outputMapping| && s.outputMapping[n].1 == g;
      var i, j := LastIsThere(s.outputMapping, n);
    }
  }

  lemma WrittenMore(steps: seq<ChainStep>, k: nat, output: State,
                    before: State, after: State, final: State, final': State)
    requires k < |steps| && Written(steps, k, before, final)
    requires Renames(steps[k].outputMapping, output, before, after)
    requires Renames(steps[k].outputMapping, output, final, final')
    ensures Written(steps, k + 1, after, final')
  {
    forall g
      ensures g in final' <==> exists j :: 0 <= j < k + 1 && Writes(steps[j], g)
      ensures g in final' ==> g in after && final'[g] == after[g]
    {
      WritesAreMapped(steps[k], output, before, after, g);
      WritesAreMapped(steps[k], output, final, final', g);
    }
  }

  lemma StepIsInvoked(s: ChainStep, step: nat, state: State, final: State)
    ensures match InvokeStep(s, step, state, final)
            case Err(e) => InvokeFails(s, step, state, e)
            case Ok(next) => exists given, output ::
              InvokedWith(s, state, given, output, next.0) && Renames(s.outputMapping, output, final, next.1)
  {
    GatheredExactly(s.inputMapping, state, step);
    var gathered := Gather(s.inputMapping, state, step);
    if gathered.Ok? && s.chain.invoke(gathered.value).Ok? {
      var output := s.chain.invoke(gathered.value).value;
      StoredExactly(s.outputMapping, output, state, step);
      StoredExactly(s.outputMapping, output, final, step);
      StoreIndependent(s.outputMapping, output, state, final, step);
      if InvokeStep(s, step, state, final).Ok? {
        assert InvokedWith(s, state, gathered.value, output, InvokeStep(s, step, state, final).value.0);
      }
    }
  }

  lemma ExecutesMore(steps: seq<ChainStep>, k: nat, states: seq<State>, next: State)
    requires k < |steps| && Executes(steps, k, states) && Invoked(steps[k], states[k], next)
    ensures Executes(steps, k + 1, states + [next])
  {
    var longer := states + [next];
    forall i | 0 <= i < k + 1
      ensures Invoked(steps[i], longer[i], longer[i + 1])
    {
      assert i < k ==> Invoked(steps[i], states[i], states[i + 1]);
    }
  }

  lemma {:induction false} RunFromIsExecution(steps: seq<ChainStep>, k: nat, states: seq<State>, final: State)
    requires Executes(steps, k, states) && Written(steps, k, states[k], final)
    ensures Outcome(steps, states[0], RunFrom(steps, k, states[k], final))
    decreases |steps| - k
  {
    if k < |steps| {
      StepIsInvoked(steps[k], k, states[k], final);
      match InvokeStep(steps[k], k, states[k], final)
      case Err(e) =>
      case Ok(next) =>
        var given, output :|
          InvokedWith(steps[k], states[k], given, output, next.0) &&
          Renames(steps[k].outputMapping, output, final, next.1);
        ExecutesMore(steps, k, states, next.0);
        WrittenMore(steps, k, output, states[k], next.0, final, next.1);
        RunFromIsExecution(steps, k + 1, states + [next.0], next.1);
    }
  }

  lemma SameHandedOver(mapping: Mapping, state: State, a: State, b: State)
    requires HandsOver(mapping, state, a) && HandsOver(mapping, state, b)
    ensures a == b
  {
    forall k | k in a || k in b
      ensures k in a && k in b && a[k] == b[k]
    {
      var n :| 0 <= n < |mapping| && mapping[n].0 == k;
      var i, j := LastIsThere(mapping, n);
    }
  }

  lemma SameRenamed(mapping: Mapping, output: State, before: State, a: State, b: State)
    requires Renames(mapping, output, before, a) && Renames(mapping, output, before, b)
    ensures a == b
  {
    forall g | g in a || g in b
      ensures g in a && g in b && a[g] == b[g]
    {
      if p :| p in mapping && p.1 == g {
        var n :| 0 <= n < |mapping| && mapping[n] == p;
        var i, j := LastIsThere(mapping, n);
      }
    }
  }

  lemma SameInvoked(s: ChainStep, before: State, a: State, b: State)
    requires Invoked(s, before, a) && Invoked(s, before, b)
    ensures a == b
  {
    var given, output :| InvokedWith(s, before, given, output, a);
    var given', output' :| InvokedWith(s, before, given', output', b);
    SameHandedOver(s.inputMapping, before, given, given');
    SameRenamed(s.outputMapping, output, before, a, b);
  }

  /** A step succeeds or fails, and fails in one way only. */
  lemma FailsInOneWay(s: ChainStep, step: nat, before: State, e: ChainError)
    requires InvokeFails(s, step, before, e)
    ensures forall after :: !Invoked(s, before, after)
    ensures forall e' :: InvokeFails(s, step, before, e') ==> e' == e
  {
    forall a, b | HandsOver(s.inputMapping, before, a) && HandsOver(s.inputMapping, before, b)
      ensures a == b
    {
      SameHandedOver(s.inputMapping, before, a, b);
    }
  }

  lemma {:induction false} SameStates(steps: seq<ChainStep>, k: nat, a: seq<State>, l: nat, b: seq<State>)
    requires Executes(steps, k, a) && Executes(steps, l, b) && a[0] == b[0] && k <= l
    ensures a == b[..k + 1]
  {
    if k > 0 {
      assert Executes(steps, k - 1, a[..k]) by {
        forall i | 0 <= i < k - 1
          ensures Invoked(steps[i], a[..k][i], a[..k][i + 1])
        {
          assert Invoked(steps[i], a[i], a[i + 1]);
        }
      }
      SameStates(steps, k - 1, a[..k], l, b);
      assert Invoked(steps[k - 1], a[k - 1], a[k]) && Invoked(steps[k - 1], b[k - 1], b[k]);
      assert a[k - 1] == a[..k][k - 1] == b[..k][k - 1];
      SameInvoked(steps[k - 1], a[k - 1], a[k], b[k]);
      assert a == a[..k] + [a[k]] && b[..k + 1] == b[..k] + [b[k]];
    } else {
      assert a == [a[0]] && b[..1] == [b[0]];
    }
  }

  lemma SameOutcome(steps: seq<ChainStep>, inputs: State, r: Result<State, ChainError>, t: Result<State, ChainError>)
    requires Outcome(steps, inputs, r) && Outcome(steps, inputs, t)
    ensures r == t
  {
    match (r, t)
    case (Ok(x), Ok(y)) =>
      var a :| Executes(steps, |steps|, a) && a[0] == inputs && Written(steps, |steps|, a[|steps|], x);
      var b :| Executes(steps, |steps|, b) && b[0] == inputs && Written(steps, |steps|, b[|steps|], y);
      SameStates(steps, |steps|, a, |steps|, b);
      assert a == b[..|b|] == b;
      assert x.Keys == y.Keys && forall g :: g in x ==> x[g] == y[g];
      assert x == y;
    case (Ok(x), Err(e)) => NoFailure(steps, inputs, x, e);
    case (Err(e), Ok(x)) => NoFailure(steps, inputs, x, e);
    case (Err(d), Err(e)) =>
      var k: nat, a :| k < |steps| && Executes(steps, k, a) && a[0] == inputs && InvokeFails(steps[k], k, a[k], d);
      var l: nat, b :| l < |steps| && Executes(steps, l, b) && b[0] == inputs && InvokeFails(steps[l], l, b[l], e);
      if k <= l {
        FailuresMeet(steps, k, a, d, l, b);
        FailsInOneWay(steps[k], k, a[k], d);
      } else {
        FailuresMeet(steps, l, b, e, k, a);
      }
  }

  /** Where a step fails, no execution goes on. */
  lemma FailuresMeet(steps: seq<ChainStep>, k: nat, a: seq<State>, e: ChainError, l: nat, b: seq<State>)
    requires k < |steps| && Executes(steps, k, a) && InvokeFails(steps[k], k, a[k], e)
    requires Executes(steps, l, b) && a[0] == b[0] && k <= l
    ensures k == l && a == b
  {
    SameStates(steps, k, a, l, b);
    assert a[k] == b[..k + 1][k] == b[k];
    if k < l {
      assert Invoked(steps[k], b[k], b[k + 1]);
      FailsInOneWay(steps[k], k, a[k], e);
    }
  }

  lemma NoFailure(steps: seq<ChainStep>, inputs: State, final: State, e: ChainError)
    requires Outcome(steps, inputs, Ok(final))
    ensures !Outcome(steps, inputs, Err(e))
  {
    var b :| Executes(steps, |steps|, b) && b[0] == inputs;
    if Outcome(steps, inputs, Err(e)) {
      var k: nat, a :| k < |steps| && Executes(steps, k, a) && a[0] == inputs && InvokeFails(steps[k], k, a[k], e);
      FailuresMeet(steps, k, a, e, |steps|, b);
    }
  }

  /**
   A run does what the mappings say, step by step, and returns what was written, or fails where a step does; and nothing
   else is the outcome of these steps on these inputs.
   */
  lemma RunIsExecution(c: SequentialChain, inputs: State, r: Result<State, ChainError>)
    ensures Outcome(c.chains, inputs, r) <==> r == c.Run(inputs)
  {
    assert Executes(c.chains, 0, [inputs]) && Written(c.chains, 0, inputs, map[]);
    RunFromIsExecution(c.chains, 0, [inputs], map[]);
    if Outcome(c.chains, inputs, r) {
      SameOutcome(c.chains, inputs, r, c.Run(inputs));
    }
  }

  /** One chain: its run is what the chain answers to the mapped inputs, renamed by its output mapping. */
  lemma OneChainRun(s: ChainStep, inputs: State, given: State, output: State)
    requires HandsOver(s.inputMapping, inputs, given) && s.chain.invoke(given) == Ok(output)
    ensures match SequentialChain([s]).Run(inputs)
            case Ok(final) => Renames(s.outputMapping, output, map[], final)
            case Err(e) => exists i ::
              FirstAbsent(s.outputMapping, output, i) && e == OutputError(0, s.outputMapping[i].0)
  {
    GatheredExactly(s.inputMapping, inputs, 0);
    if Gather(s.inputMapping, inputs, 0).Ok? {
      SameHandedOver(s.inputMapping, inputs, given, Gather(s.inputMapping, inputs, 0).value);
    }
    StoredExactly(s.outputMapping, output, inputs, 0);
    StoredExactly(s.outputMapping, output, map[], 0);
    StoreIndependent(s.outputMapping, output, inputs, map[], 0);
    var next := InvokeStep(s, 0, inputs, map[]);
    assert [s][0] == s;
    if next.Ok? {
      assert RunFrom([s], 1, next.value.0, next.value.1) == Ok(next.value.1);
    }
  }

  /** A forwarded step: where it is streamed, the text of its stream is written. */
  ghost predicate Forwarded(s: ChainStep, before: State, after: State) {
    if |s.outputMapping| == 1 && s.outputMapping[0].0 in s.chain.outputKeys then
      exists given, tokens, text ::
        && HandsOver(s.inputMapping, before, given) && s.chain.stream(given) == Ok(tokens) && Text(tokens) == Ok(text)
        && after == before[s.outputMapping[0].1 := Str(text)]
    else Invoked(s, before, after)
  }

  ghost predicate ForwardFails(s: ChainStep, step: nat, before: State, e: ChainError) {
    if |s.outputMapping| == 1 && s.outputMapping[0].0 in s.chain.outputKeys then
      || InputFails(s, step, before, e)
      || (exists given, cause :: HandsOver(s.inputMapping, before, given) && s.chain.stream(given) == Err(cause) &&
                                 e == Nested(step, cause))
      || (exists given, tokens, cause ::
            && HandsOver(s.inputMapping, before, given) && s.chain.stream(given) == Ok(tokens)
            && Text(tokens) == Err(cause) && e == Nested(step, cause))
    else InvokeFails(s, step, before, e)
  }

  /** The last step, with all mapped outputs declared, hands its stream on. */
  ghost predicate Streamed(s: ChainStep, before: State, tokens: Tokens) {
    && (forall p :: p in s.outputMapping ==> p.0 in s.chain.outputKeys)
    && exists given :: HandsOver(s.inputMapping, before, given) && s.chain.stream(given) == Ok(tokens)
  }

  /** An input is missing, a mapped output is not declared, or the chain refuses to stream. */
  ghost predicate StreamFails(s: ChainStep, step: nat, before: State, e: ChainError) {
    || InputFails(s, step, before, e)
    || (exists given, i ::
          && HandsOver(s.inputMapping, before, given)
          && IsFirstUndeclared(s.outputMapping, s.chain.outputKeys, i) && e == OutputError(step, s.outputMapping[i].0))
    || ((forall p :: p in s.outputMapping ==> p.0 in s.chain.outputKeys) &&
        exists given :: HandsOver(s.inputMapping, before, given) && s.chain.stream(given) == Err(e))
  }

  predicate IsFirstUndeclared(mapping: Mapping, declared: seq<Key>, i: int) {
    0 <= i < |mapping| && mapping[i].0 !in declared && forall j :: 0 <= j < i ==> mapping[j].0 in declared
  }

  ghost predicate Forwards(steps: seq<ChainStep>, k: nat, states: seq<State>) {
    && k <= |steps| && |states| == k + 1
    && forall i :: 0 <= i < k ==> Forwarded(steps[i], states[i], states[i + 1])
  }

  /** What a stream comes to, told from the states between its steps. */
  ghost predicate StreamOutcome(steps: seq<ChainStep>, inputs: State, r: Result<Tokens, ChainError>) {
    if steps == [] then r == Err(ExecutionError("SequentialChain has no chains"))
    else
      var n := |steps| - 1;
      match r
      case Ok(tokens) => exists states ::
        Forwards(steps, n, states) && states[0] == inputs && Streamed(steps[n], states[n], tokens)
      case Err(e) => exists k: nat, states ::
        && k <= n && Forwards(steps, k, states) && states[0] == inputs
        && if k < n then ForwardFails(steps[k], k, states[k], e) else StreamFails(steps[n], n, states[n], e)
  }

  lemma StepIsForwarded(s: ChainStep, step: nat, state: State)
    ensures match ForwardStep(s, step, state)
            case Err(e) => ForwardFails(s, step, state, e)
            case Ok(next) => Forwarded(s, state, next)
  {
    GatheredExactly(s.inputMapping, state, step);
    if !Streamable(s) {
      StepIsInvoked(s, step, state, state);
      var gathered := Gather(s.inputMapping, state, step);
      if gathered.Ok? && s.chain.invoke(gathered.value).Ok? {
        assert ForwardStep(s, step, state) ==
               Store(s.outputMapping, s.chain.invoke(gathered.value).value, state, step);
      }
    }
  }

  lemma LastIsStreamed(s: ChainStep, step: nat, state: State)
    ensures match LastStream(s, step, state)
            case Err(e) => StreamFails(s, step, state, e)
            case Ok(tokens) => Streamed(s, state, tokens)
  {
    GatheredExactly(s.inputMapping, state, step);
    UndeclaredIsFirst(s.outputMapping, s.chain.outputKeys);
  }

  lemma {:induction false} UndeclaredIsFirst(mapping: Mapping, declared: seq<Key>)
    ensures FirstUndeclared(mapping, declared).Some? ==>
              exists i :: IsFirstUndeclared(mapping, declared, i) &&
                          mapping[i].0 == FirstUndeclared(mapping, declared).value
  {
    if mapping != [] {
      if mapping[0].0 !in declared {
        assert IsFirstUndeclared(mapping, declared, 0);
      } else if FirstUndeclared(mapping, declared).Some? {
        UndeclaredIsFirst(mapping[1..], declared);
        var i :| IsFirstUndeclared(mapping[1..], declared, i) &&
                 mapping[1..][i].0 == FirstUndeclared(mapping, declared).value;
        assert forall j :: 0 < j < i + 1 ==> mapping[j] == mapping[1..][j - 1];
        assert IsFirstUndeclared(mapping, declared, i + 1);
      }
    }
  }

  lemma ForwardsMore(steps: seq<ChainStep>, k: nat, states: seq<State>, next: State)
    requires k < |steps| && Forwards(steps, k, states) && Forwarded(steps[k], states[k], next)
    ensures Forwards(steps, k + 1, states + [next])
  {
    var longer := states + [next];
    forall i | 0 <= i < k + 1
      ensures Forwarded(steps[i], longer[i], longer[i + 1])
    {
      assert i < k ==> Forwarded(steps[i], states[i], states[i + 1]);
    }
  }

  lemma {:induction false} StreamFromIsExecution(steps: seq<ChainStep>, k: nat, states: seq<State>)
    requires k < |steps| && Forwards(steps, k, states)
    ensures StreamOutcome(steps, states[0], StreamFrom(steps, k, states[k]))
    decreases |steps| - k
  {
    if k == |steps| - 1 {
      LastIsStreamed(steps[k], k, states[k]);
    } else {
      StepIsForwarded(steps[k], k, states[k]);
      match ForwardStep(steps[k], k, states[k])
      case Err(e) =>
      case Ok(next) =>
        ForwardsMore(steps, k, states, next);
        StreamFromIsExecution(steps, k + 1, states + [next]);
    }
  }

  /** A stream forwards the text of every streamed step, step by step, or fails where a step does. */
  lemma StreamIsExecution(c: SequentialChain, inputs: State)
    ensures StreamOutcome(c.chains, inputs, c.Stream(inputs))
  {
    if c.chains != [] {
      assert Forwards(c.chains, 0, [inputs]);
      StreamFromIsExecution(c.chains, 0, [inputs]);
    }
  }

  /** The text of a stream is put together token by token, up to the first error. */
  lemma {:induction false} TextOfBoth(a: Tokens, b: Tokens)
    ensures Text(a).Err? ==> Text(a + b) == Text(a)
    ensures Text(a).Ok? && Text(b).Err? ==> Text(a + b) == Text(b)
    ensures Text(a).Ok? && Text(b).Ok? ==> Text(a + b) == Ok(Text(a).value + Text(b).value)
  {
    if b == [] {
      assert a + b == a;
      assert Text(a).Ok? ==> Text(a).value + "" == Text(a).value;
    } else {
      var front, last := b[..|b| - 1], b[|b| - 1];
      TextOfBoth(a, front);
      assert (a + b)[..|a + b| - 1] == a + front;
      if Text(a).Ok? && Text(front).Ok? && last.Ok? {
        TextAssoc(Text(a).value, Text(front).value, last.value);
      }
    }
  }

  lemma TextAssoc(a: string, b: string, c: string)
    ensures a + b + c == a + (b + c)
  {
  }

  lemma TextOfOne(token: Result<string, ChainError>)
    ensures Text([token]) == token && Text([]) == Ok("")
  {
    assert [token][..0] == [];
    assert token.Ok? ==> "" + token.value == token.value;
  }

  // ---------- Streaming computes what invoking computes ----------

  /** On every input the chain's stream spells out the string its invocation puts under `key`, or both fail. */
  ghost predicate Coherent(chain: Chain, key: Key) {
    forall inputs :: CoherentOn(chain, key, inputs)
  }

  predicate CoherentOn(chain: Chain, key: Key, inputs: State) {
    match chain.invoke(inputs)
    case Err(_) => StreamedText(chain, inputs).Err?
    case Ok(out) =>
      if key in out then out[key].Str? && StreamedText(chain, inputs) == Ok(out[key].s)
      else StreamedText(chain, inputs).Err?
  }

  /** What the caller of the streaming executor reads in the end. */
  function StreamedResult(c: SequentialChain, inputs: State): Result<string, ChainError> {
    match c.Stream(inputs)
    case Err(e) => Err(e)
    case Ok(tokens) => Text(tokens)
  }

  ghost predicate StreamsFaithfully(steps: seq<ChainStep>) {
    && steps != []
    && Streamable(steps[|steps| - 1])
    && forall i :: 0 <= i < |steps| && Streamable(steps[i]) ==> Coherent(steps[i].chain, steps[i].outputMapping[0].0)
  }

  lemma {:induction false} StoreIndependent(mapping: Mapping, output: State, a: State, b: State, step: nat)
    ensures Store(mapping, output, a, step).Ok? <==> Store(mapping, output, b, step).Ok?
    ensures Store(mapping, output, a, step).Err? ==> Store(mapping, output, a, step) == Store(mapping, output, b, step)
  {
    if mapping != [] {
      StoreIndependent(mapping[..|mapping| - 1], output, a, b, step);
    }
  }

  lemma StoreOne(mapping: Mapping, output: State, into: State, step: nat)
    requires |mapping| == 1
    ensures Store(mapping, output, into, step) ==
            if mapping[0].0 in output then Ok(into[mapping[0].1 := output[mapping[0].0]])
            else Err(OutputError(step, mapping[0].0))
  {
  }

  /** What a streamed step is given, if it is, its chain streams faithfully. */
  predicate StepIsCoherent(s: ChainStep, step: nat, state: State) {
    Streamable(s) ==>
      match Gather(s.inputMapping, state, step)
      case Err(_) => true
      case Ok(gathered) => CoherentOn(s.chain, s.outputMapping[0].0, gathered)
  }

  /** Both executors get past the step, and then hold the same state, or neither does. */
  predicate SameStep(s: ChainStep, step: nat, state: State, final: State) {
    var run, forward := InvokeStep(s, step, state, final), ForwardStep(s, step, state);
    (run.Ok? <==> forward.Ok?) && (run.Ok? ==> run.value.0 == forward.value)
  }

  /** The executors stay together over one step exactly when it, if streamed, is faithful on what it is given. */
  lemma StepSimulation(s: ChainStep, step: nat, state: State, final: State)
    ensures SameStep(s, step, state, final) <==> StepIsCoherent(s, step, state)
  {
    var gathered := Gather(s.inputMapping, state, step);
    if gathered.Ok? && s.chain.invoke(gathered.value).Ok? {
      var output := s.chain.invoke(gathered.value).value;
      StoreIndependent(s.outputMapping, output, state, final, step);
      if Streamable(s) {
        StoreOne(s.outputMapping, output, state, step);
        if s.outputMapping[0].0 in output && StreamedText(s.chain, gathered.value).Ok? {
          var run := state[s.outputMapping[0].1 := output[s.outputMapping[0].0]];
          var forward := state[s.outputMapping[0].1 := Str(StreamedText(s.chain, gathered.value).value)];
          assert run[s.outputMapping[0].1] == output[s.outputMapping[0].0];
          assert run == forward <==> output[s.outputMapping[0].0] == Str(StreamedText(s.chain, gathered.value).value);
        }
      }
    }
  }

  /** The run succeeds iff the stream does, and then holds the streamed text under `key`. */
  predicate SameText(run: Result<State, ChainError>, streamed: Result<string, ChainError>, key: Key) {
    && (run.Ok? <==> streamed.Ok?)
    && (run.Ok? ==> key in run.value && run.value[key] == Str(streamed.value))
  }

  /**
   What the last step is given, if it is, its chain streams faithfully; and if the mapped output is not declared, so
   that the stream is refused, there is no such output either.
   */
  predicate LastIsCoherent(s: ChainStep, step: nat, state: State)
    requires |s.outputMapping| == 1
  {
    var key := s.outputMapping[0].0;
    match Gather(s.inputMapping, state, step)
    case Err(_) => true
    case Ok(gathered) =>
      if key in s.chain.outputKeys then CoherentOn(s.chain, key, gathered)
      else s.chain.invoke(gathered).Ok? ==> key !in s.chain.invoke(gathered).value
  }

  /** The outcomes of the last step. */
  predicate SameLast(s: ChainStep, step: nat, state: State, final: State)
    requires |s.outputMapping| == 1
  {
    var run := InvokeStep(s, step, state, final);
    var outputs := if run.Ok? then Ok(run.value.1) else Err(run.error);
    SameText(outputs, Then(LastStream(s, step, state), (t: Tokens) => Text(t)), s.outputMapping[0].1)
  }

  lemma LastStepAgreesExactly(s: ChainStep, step: nat, state: State, final: State)
    requires |s.outputMapping| == 1
    ensures SameLast(s, step, state, final) <==> LastIsCoherent(s, step, state)
  {
    var gathered := Gather(s.inputMapping, state, step);
    if gathered.Ok? {
      assert s.outputMapping[1..] == [];
      assert FirstUndeclared(s.outputMapping, s.chain.outputKeys).None? <==>
             s.outputMapping[0].0 in s.chain.outputKeys;
      if s.chain.invoke(gathered.value).Ok? {
        StoreOne(s.outputMapping, s.chain.invoke(gathered.value).value, state, step);
        StoreOne(s.outputMapping, s.chain.invoke(gathered.value).value, final, step);
      }
    }
  }

  /** A composition whose last step has one mapped output. */
  predicate EndsInOne(steps: seq<ChainStep>) {
    steps != [] && |steps[|steps| - 1].outputMapping| == 1
  }

  /** From step `k` on, every step before the last is faithful on what the stream gives it. */
  predicate ForwardIsCoherent(steps: seq<ChainStep>, k: nat, state: State)
    requires k < |steps|
    decreases |steps| - k
  {
    k < |steps| - 1 ==>
      && StepIsCoherent(steps[k], k, state)
      && (ForwardStep(steps[k], k, state).Ok? ==>
            ForwardIsCoherent(steps, k + 1, ForwardStep(steps[k], k, state).value))
  }

  /** If the stream gets to the last step, that step is faithful on what it is given. */
  predicate EndsCoherent(steps: seq<ChainStep>, k: nat, state: State)
    requires k < |steps| && EndsInOne(steps)
    decreases |steps| - k
  {
    if k == |steps| - 1 then LastIsCoherent(steps[k], k, state)
    else
      match ForwardStep(steps[k], k, state)
      case Err(_) => true
      case Ok(next) => EndsCoherent(steps, k + 1, next)
  }

  /** From step `k` on the executors hold the same state after every step, and come to the same text. */
  predicate AgreeThroughout(steps: seq<ChainStep>, k: nat, state: State, final: State)
    requires k < |steps| && EndsInOne(steps)
    decreases |steps| - k
  {
    if k == |steps| - 1 then SameLast(steps[k], k, state, final)
    else
      && SameStep(steps[k], k, state, final)
      && (InvokeStep(steps[k], k, state, final).Ok? ==>
            var next := InvokeStep(steps[k], k, state, final).value;
            AgreeThroughout(steps, k + 1, next.0, next.1))
  }

  lemma {:induction false} AgreementIsCoherence(steps: seq<ChainStep>, k: nat, state: State, final: State)
    requires k < |steps| && EndsInOne(steps)
    ensures AgreeThroughout(steps, k, state, final) <==>
            ForwardIsCoherent(steps, k, state) && EndsCoherent(steps, k, state)
    decreases |steps| - k
  {
    if k == |steps| - 1 {
      LastStepAgreesExactly(steps[k], k, state, final);
    } else {
      StepSimulation(steps[k], k, state, final);
      var next := InvokeStep(steps[k], k, state, final);
      if next.Ok? && SameStep(steps[k], k, state, final) {
        AgreementIsCoherence(steps, k + 1, next.value.0, next.value.1);
      }
    }
  }

  lemma {:induction false} Simulation(steps: seq<ChainStep>, k: nat, state: State, final: State)
    requires k < |steps| && EndsInOne(steps) && ForwardIsCoherent(steps, k, state)
    ensures SameText(RunFrom(steps, k, state, final), Then(StreamFrom(steps, k, state), (t: Tokens) => Text(t)),
                     steps[|steps| - 1].outputMapping[0].1) <==>
            EndsCoherent(steps, k, state)
    decreases |steps| - k
  {
    if k == |steps| - 1 {
      LastStepAgreesExactly(steps[k], k, state, final);
    } else {
      StepSimulation(steps[k], k, state, final);
      var next := InvokeStep(steps[k], k, state, final);
      if next.Ok? {
        Simulation(steps, k + 1, next.value.0, next.value.1);
      }
    }
  }

  lemma {:induction false} FaithfulIsCoherent(steps: seq<ChainStep>, k: nat, state: State)
    requires StreamsFaithfully(steps) && k < |steps|
    ensures ForwardIsCoherent(steps, k, state) && EndsCoherent(steps, k, state)
    decreases |steps| - k
  {
    assert Streamable(steps[k]) ==> Coherent(steps[k].chain, steps[k].outputMapping[0].0);
    if k < |steps| - 1 && ForwardStep(steps[k], k, state).Ok? {
      FaithfulIsCoherent(steps, k + 1, ForwardStep(steps[k], k, state).value);
    }
  }

  /**
   Over whole compositions: the executors hold the same state after every step and come to the same text exactly when
   every step, where it is streamed, is faithful on what it is given there.
   */
  lemma ExecutorsAgreeThroughoutExactly(c: SequentialChain, inputs: State)
    requires EndsInOne(c.chains)
    ensures AgreeThroughout(c.chains, 0, inputs, map[]) <==>
            ForwardIsCoherent(c.chains, 0, inputs) && EndsCoherent(c.chains, 0, inputs)
  {
    AgreementIsCoherence(c.chains, 0, inputs, map[]);
  }

  /** As long as the steps before it are faithful, it is the last step that decides whether the results agree. */
  lemma ExecutorsAgreeExactly(c: SequentialChain, inputs: State)
    requires EndsInOne(c.chains) && ForwardIsCoherent(c.chains, 0, inputs)
    ensures SameText(c.Run(inputs), StreamedResult(c, inputs), c.chains[|c.chains| - 1].outputMapping[0].1) <==>
            EndsCoherent(c.chains, 0, inputs)
  {
    Simulation(c.chains, 0, inputs, map[]);
  }

  /** The streaming executor succeeds iff the invoking one does, and its tokens spell the last mapped output. */
  lemma StreamEqualsInvoke(c: SequentialChain, inputs: State)
    requires StreamsFaithfully(c.chains)
    ensures var key := c.chains[|c.chains| - 1].outputMapping[0].1;
            && (c.Run(inputs).Ok? <==> StreamedResult(c, inputs).Ok?)
            && (c.Run(inputs).Ok? ==> key in c.Run(inputs).value &&
                                      c.Run(inputs).value[key] == Str(StreamedResult(c, inputs).value))
  {
    FaithfulIsCoherent(c.chains, 0, inputs);
    ExecutorsAgreeExactly(c, inputs);
  }

  // ---------- The default stream ----------

  predicate AtMost(a: string, b: string) {
    a == "" || (b != "" && (a[0] < b[0] || (a[0] == b[0] && AtMost(a[1..], b[1..]))))
  }

  /** The first letters that differ stand at `i`, and `a` has the smaller one. */
  predicate SmallerAt(a: string, b: string, i: int) {
    0 <= i < |a| && i < |b| && a[i] < b[i] && forall k :: 0 <= k < i ==> a[k] == b[k]
  }

  lemma SmallerBehind(a: string, b: string, i: int)
    requires a != "" && b != "" && a[0] == b[0]
    ensures SmallerAt(a, b, i) <==> SmallerAt(a[1..], b[1..], i - 1)
    ensures a <= b <==> a[1..] <= b[1..]
  {
    var x, y := a[1..], b[1..];
    assert a == [a[0]] + x && b == [a[0]] + y;
    if SmallerAt(x, y, i - 1) {
      assert forall k :: 0 < k < i ==> a[k] == x[k - 1] && b[k] == y[k - 1];
    }
  }

  /** That is the order of dictionaries: a prefix comes first, and so does the smaller first letter that differs. */
  lemma {:induction false} AtMostIsLexicographic(a: string, b: string)
    ensures AtMost(a, b) <==> a <= b || exists i :: SmallerAt(a, b, i)
  {
    if a != "" && b != "" && a[0] == b[0] {
      AtMostIsLexicographic(a[1..], b[1..]);
      SmallerBehind(a, b, 0);
      if i :| SmallerAt(a[1..], b[1..], i) {
        SmallerBehind(a, b, i + 1);
      }
      if i :| SmallerAt(a, b, i) {
        SmallerBehind(a, b, i);
      }
    } else if a != "" && b != "" && a[0] < b[0] {
      assert SmallerAt(a, b, 0);
    }
  }

  ghost predicate IsMin(keys: set<Key>, k: Key) {
    k in keys && forall j :: j in keys ==> AtMost(k, j)
  }

  lemma {:induction false} AtMostTotal(a: string, b: string)
    ensures AtMost(a, b) || AtMost(b, a)
    ensures AtMost(a, b) && AtMost(b, a) ==> a == b
  {
    if a != "" && b != "" && a[0] == b[0] {
      AtMostTotal(a[1..], b[1..]);
      assert a == [a[0]] + a[1..] && b == [b[0]] + b[1..];
    }
  }

  lemma {:induction false} AtMostTransitive(a: string, b: string, c: string)
    requires AtMost(a, b) && AtMost(b, c)
    ensures AtMost(a, c)
  {
    if a != "" && a[0] == b[0] && b[0] == c[0] {
      AtMostTransitive(a[1..], b[1..], c[1..]);
    }
  }

  /** Every non-empty set of keys has exactly one smallest key. */
  lemma {:induction false} MinIsUnique(keys: set<Key>) returns (k: Key)
    requires keys != {}
    ensures IsMin(keys, k)
    ensures forall j :: IsMin(keys, j) ==> j == k
    decreases keys
  {
    k :| k in keys;
    AtMostTotal(k, k);
    if keys != {k} {
      var rest := keys - {k};
      assert rest != {} by {
        assert keys == rest + {k};
      }
      var m := MinIsUnique(rest);
      AtMostTotal(k, m);
      if AtMost(m, k) {
        k := m;
      } else {
        forall j | j in rest
          ensures AtMost(k, j)
        {
          AtMostTransitive(k, m, j);
        }
      }
    }
    forall j | IsMin(keys, j)
      ensures j == k
    {
      AtMostTotal(j, k);
    }
  }

  lemma MinExists(keys: set<Key>)
    requires keys != {}
    ensures exists k :: IsMin(keys, k)
  {
    var k := MinIsUnique(keys);
  }

  function AsStr(v: Value): Option<string> {
    match v
    case Str(s) => Some(s)
    case Other(_) => None
  }

  function FirstDeclared(outputKeys: seq<Key>, result: State): Option<string> {
    if outputKeys == [] then None
    else if outputKeys[0] in result && result[outputKeys[0]].Str? then Some(result[outputKeys[0]].s)
    else FirstDeclared(outputKeys[1..], result)
  }

  /** The only value, or the value of the smallest key. */
  ghost function Fallback(result: State): Option<string> {
    if result.Keys == {} then None
    else
      MinExists(result.Keys);
      var k :| IsMin(result.Keys, k);
      AsStr(result[k])
  }

  ghost function DefaultText(outputKeys: seq<Key>, result: State): Option<string> {
    match FirstDeclared(outputKeys, result)
    case Some(s) => Some(s)
    case None => Fallback(result)
  }

  ghost function DefaultStream(outputKeys: seq<Key>, invoke: State -> Result<State, ChainError>)
    : State -> Result<Tokens, ChainError>
  {
    inputs =>
      match invoke(inputs)
      case Err(e) => Err(e)
      case Ok(result) =>
        match DefaultText(outputKeys, result)
        case Some(s) => Ok([Ok(s)])
        case None => Err(OutputError(0, ""))
  }

  /** A chain that keeps the default stream. */
  ghost function DefaultChain(outputKeys: seq<Key>, invoke: State -> Result<State, ChainError>): Chain {
    Chain(outputKeys, invoke, DefaultStream(outputKeys, invoke))
  }

  lemma DefaultStreamedText(outputKeys: seq<Key>, invoke: State -> Result<State, ChainError>, inputs: State)
    ensures invoke(inputs).Err? ==> StreamedText(DefaultChain(outputKeys, invoke), inputs).Err?
    ensures invoke(inputs).Ok? ==>
              var text := DefaultText(outputKeys, invoke(inputs).value);
              StreamedText(DefaultChain(outputKeys, invoke), inputs) ==
              if text.Some? then Ok(text.value) else Err(OutputError(0, ""))
  {
    if invoke(inputs).Ok? && DefaultText(outputKeys, invoke(inputs).value).Some? {
      var tokens: Tokens := [Ok(DefaultText(outputKeys, invoke(inputs).value).value)];
      assert Text(tokens[..0]) == Ok("");
      assert "" + tokens[0].value == tokens[0].value;
    }
  }

  /** Output `i` is the one the default stream picks: the first declared output that holds a string. */
  predicate Leads(outputKeys: seq<Key>, out: State, i: int) {
    && 0 <= i < |outputKeys| && outputKeys[i] in out && out[outputKeys[i]].Str?
    && forall j :: 0 <= j < i ==> !(outputKeys[j] in out && out[outputKeys[j]].Str?)
  }

  /** The pick is well described: it is the text of the output that leads, and there is none without such an output. */
  lemma {:induction false} FirstDeclaredLeads(outputKeys: seq<Key>, out: State)
    ensures match FirstDeclared(outputKeys, out)
            case Some(s) => exists i :: Leads(outputKeys, out, i) && out[outputKeys[i]] == Str(s)
            case None => forall i :: !Leads(outputKeys, out, i)
  {
    if outputKeys != [] {
      var rest := outputKeys[1..];
      FirstDeclaredLeads(rest, out);
      if outputKeys[0] in out && out[outputKeys[0]].Str? {
        assert Leads(outputKeys, out, 0);
      } else {
        forall i | Leads(outputKeys, out, i)
          ensures Leads(rest, out, i - 1)
        {
          assert forall j :: 0 <= j < i - 1 ==> rest[j] == outputKeys[j + 1];
        }
        forall i | Leads(rest, out, i)
          ensures Leads(outputKeys, out, i + 1)
        {
          assert forall j :: 0 < j < i + 1 ==> outputKeys[j] == rest[j - 1];
        }
        if FirstDeclared(rest, out).Some? {
          var i :| Leads(rest, out, i) && out[rest[i]] == Str(FirstDeclared(rest, out).value);
          assert Leads(outputKeys, out, i + 1) && outputKeys[i + 1] == rest[i];
        }
      }
    }
  }

  lemma OneLeads(outputKeys: seq<Key>, out: State, i: int, j: int)
    requires Leads(outputKeys, out, i) && Leads(outputKeys, out, j)
    ensures i == j
  {
  }

  /**
   The result spells `key` out: either `key` holds a string and the first declared output that holds one, or the
   fallback without such an output, holds the same text; or `key` is absent and there is nothing to stream.
   */
  ghost predicate Spells(outputKeys: seq<Key>, key: Key, out: State) {
    if key in out then
      && out[key].Str?
      && (forall i :: Leads(outputKeys, out, i) ==> out[outputKeys[i]] == out[key])
      && ((forall i :: !Leads(outputKeys, out, i)) ==> Fallback(out) == Some(out[key].s))
    else
      (forall i :: !Leads(outputKeys, out, i)) && Fallback(out).None?
  }

  lemma DefaultCoherentOn(outputKeys: seq<Key>, key: Key, invoke: State -> Result<State, ChainError>, inputs: State)
    ensures CoherentOn(DefaultChain(outputKeys, invoke), key, inputs) <==>
            (invoke(inputs).Ok? ==> Spells(outputKeys, key, invoke(inputs).value))
  {
    DefaultStreamedText(outputKeys, invoke, inputs);
    if invoke(inputs).Ok? {
      var out := invoke(inputs).value;
      FirstDeclaredLeads(outputKeys, out);
      if FirstDeclared(outputKeys, out).Some? {
        var i :| Leads(outputKeys, out, i) && out[outputKeys[i]] == Str(FirstDeclared(outputKeys, out).value);
        forall j | Leads(outputKeys, out, j)
          ensures j == i
        {
          OneLeads(outputKeys, out, i, j);
        }
      }
    }
  }

  /** Whatever is declared, the default stream is faithful for `key` exactly when every result spells it out. */
  lemma DefaultStreamCoherence(outputKeys: seq<Key>, key: Key, invoke: State -> Result<State, ChainError>)
    ensures Coherent(DefaultChain(outputKeys, invoke), key) <==>
            forall inputs :: invoke(inputs).Ok? ==> Spells(outputKeys, key, invoke(inputs).value)
  {
    forall inputs
      ensures CoherentOn(DefaultChain(outputKeys, invoke), key, inputs) <==>
              (invoke(inputs).Ok? ==> Spells(outputKeys, key, invoke(inputs).value))
    {
      DefaultCoherentOn(outputKeys, key, invoke, inputs);
    }
  }

  /** A declared output: the fallback cannot stand in for a string it holds. */
  lemma DeclaredSpells(outputKeys: seq<Key>, key: Key, out: State)
    requires key in outputKeys
    ensures Spells(outputKeys, key, out) <==>
            if key in out then
              && out[key].Str?
              && (forall i :: Leads(outputKeys, out, i) ==> out[outputKeys[i]] == out[key])
            else
              (forall i :: !Leads(outputKeys, out, i)) && Fallback(out).None?
  {
    if key in out && out[key].Str? {
      FirstDeclaredLeads(outputKeys, out);
      StringIsFound(outputKeys, key, out);
    }
  }

  lemma {:induction false} StringIsFound(outputKeys: seq<Key>, key: Key, out: State)
    requires key in outputKeys && key in out && out[key].Str?
    ensures FirstDeclared(outputKeys, out).Some?
  {
    if outputKeys[0] != key {
      StringIsFound(outputKeys[1..], key, out);
    }
  }

  /**
   On one chain with the default stream the executors agree exactly when its result spells out the mapped output, or, if
   that is not declared, does not hold it.
   */
  lemma DefaultStepAgreesExactly(outputKeys: seq<Key>, invoke: State -> Result<State, ChainError>,
                                 mapping: Mapping, key: Key, mapped: Key, inputs: State)
    ensures var c := SequentialChain([ChainStep(DefaultChain(outputKeys, invoke), mapping, [(key, mapped)])]);
            SameText(c.Run(inputs), StreamedResult(c, inputs), mapped) <==>
            match Gather(mapping, inputs, 0)
            case Err(_) => true
            case Ok(gathered) =>
              invoke(gathered).Ok? ==>
                if key in outputKeys then Spells(outputKeys, key, invoke(gathered).value)
                else key !in invoke(gathered).value
  {
    var s := ChainStep(DefaultChain(outputKeys, invoke), mapping, [(key, mapped)]);
    ExecutorsAgreeExactly(SequentialChain([s]), inputs);
    assert EndsCoherent([s], 0, inputs) == LastIsCoherent(s, 0, inputs);
    if Gather(mapping, inputs, 0).Ok? {
      DefaultCoherentOn(outputKeys, key, invoke, Gather(mapping, inputs, 0).value);
    }
  }

  /** A mapped output that the chain produces but does not declare is found by the run and refused by the stream. */
  lemma UndeclaredIsNotStreamed()
    ensures var result: State := map["b" := Str("y")];
            var c := SequentialChain([ChainStep(DefaultChain([], _ => Ok(result)), [], [("b", "out")])]);
            && Spells([], "b", result)
            && c.Run(map[]) == Ok(map["out" := Str("y")])
            && StreamedResult(c, map[]) == Err(OutputError(0, "b"))
  {
    var result: State := map["b" := Str("y")];
    var invoke: State -> Result<State, ChainError> := _ => Ok(result);
    var step := ChainStep(DefaultChain([], invoke), [], [("b", "out")]);
    StoreOne(step.outputMapping, result, map[], 0);
    assert InvokeStep(step, 0, map[], map[]) == Ok((map["out" := Str("y")], map["out" := Str("y")]));
    MinExists(result.Keys);
    assert forall k :: IsMin(result.Keys, k) ==> k == "b";
    assert Fallback(result) == Some("y");
  }

  /** With two declared outputs, mapping only the second makes the executors disagree. */
  lemma SecondOutputIsNotStreamed()
    ensures var result: State := map["a" := Str("x"), "b" := Str("y")];
            var chain := DefaultChain(["a", "b"], _ => Ok(result));
            var c := SequentialChain([ChainStep(chain, [], [("b", "out")])]);
            c.Run(map[]) == Ok(map["out" := Str("y")]) && StreamedResult(c, map[]) == Ok("x")
  {
    var result: State := map["a" := Str("x"), "b" := Str("y")];
    var invoke: State -> Result<State, ChainError> := _ => Ok(result);
    var chain := DefaultChain(["a", "b"], invoke);
    var step := ChainStep(chain, [], [("b", "out")]);
    DefaultStreamedText(["a", "b"], invoke, map[]);
    StoreOne(step.outputMapping, result, map[], 0);
    assert InvokeStep(step, 0, map[], map[]) == Ok((map["out" := Str("y")], map["out" := Str("y")]));
  }

  // ---------- Which keys the caller must supply ----------

  ghost predicate Reads(s: ChainStep, g: Key) {
    exists p :: p in s.inputMapping && p.1 == g
  }

  ghost predicate Writes(s: ChainStep, g: Key) {
    exists p :: p in s.outputMapping && p.1 == g
  }

  ghost predicate WrittenBefore(steps: seq<ChainStep>, k: nat, g: Key)
    requires k <= |steps|
  {
    exists j :: 0 <= j < k && Writes(steps[j], g)
  }

  ghost predicate External(steps: seq<ChainStep>, g: Key) {
    (exists i :: 0 <= i < |steps| && Reads(steps[i], g)) && !WrittenBefore(steps, |steps|, g)
  }

  /** A key that some step produces is never read before it has been produced. */
  ghost predicate WellOrdered(steps: seq<ChainStep>) {
    forall i, g :: 0 <= i < |steps| && Reads(steps[i], g) && WrittenBefore(steps, |steps|, g) ==>
      WrittenBefore(steps, i, g)
  }

  lemma {:induction false} GatherSucceeds(mapping: Mapping, state: State, step: nat)
    ensures Gather(mapping, state, step).Ok? <==> forall p :: p in mapping ==> p.1 in state
    ensures Gather(mapping, state, step).Err? ==> Gather(mapping, state, step).error.MissingInput?
  {
    if mapping != [] {
      var front, last := mapping[..|mapping| - 1], mapping[|mapping| - 1];
      GatherSucceeds(front, state, step);
      assert forall p :: p in mapping <==> p in front || p == last;
    }
  }

  lemma {:induction false} StoreSucceeds(mapping: Mapping, output: State, into: State, step: nat)
    ensures Store(mapping, output, into, step).Ok? <==> forall p :: p in mapping ==> p.0 in output
    ensures Store(mapping, output, into, step).Ok? ==>
              Store(mapping, output, into, step).value.Keys == into.Keys + set p | p in mapping :: p.1
    ensures Store(mapping, output, into, step).Err? ==> Store(mapping, output, into, step).error.OutputError?
  {
    if mapping != [] {
      var front, last := mapping[..|mapping| - 1], mapping[|mapping| - 1];
      StoreSucceeds(front, output, into, step);
      assert mapping == front + [last];
    }
  }

  lemma StepKeys(s: ChainStep, step: nat, state: State, final: State)
    ensures InvokeStep(s, step, state, final).Ok? ==>
              var next := InvokeStep(s, step, state, final).value;
              && (forall g :: g in next.0 <==> g in state || Writes(s, g))
              && (forall g :: Reads(s, g) ==> g in state)
    ensures (forall g :: Reads(s, g) ==> g in state) && InvokeStep(s, step, state, final).Err? ==>
              !InvokeStep(s, step, state, final).error.MissingInput?
  {
    GatherSucceeds(s.inputMapping, state, step);
    var gathered := Gather(s.inputMapping, state, step);
    if gathered.Ok? && s.chain.invoke(gathered.value).Ok? {
      var output := s.chain.invoke(gathered.value).value;
      StoreSucceeds(s.outputMapping, output, state, step);
      StoreSucceeds(s.outputMapping, output, final, step);
    }
  }

  ghost predicate Supplied(steps: seq<ChainStep>, k: nat, state: State)
    requires k <= |steps|
  {
    forall g :: External(steps, g) || WrittenBefore(steps, k, g) ==> g in state
  }

  lemma StepIsSupplied(steps: seq<ChainStep>, k: nat, state: State, g: Key)
    requires WellOrdered(steps) && k < |steps| && Supplied(steps, k, state) && Reads(steps[k], g)
    ensures g in state
  {
  }

  /** In a well-ordered chain the reported keys are enough: no step ever misses an input. */
  lemma {:induction false} ReportedKeysSuffice(steps: seq<ChainStep>, k: nat, state: State, final: State)
    requires WellOrdered(steps) && k <= |steps| && Supplied(steps, k, state)
    ensures RunFrom(steps, k, state, final).Err? ==> !RunFrom(steps, k, state, final).error.MissingInput?
    decreases |steps| - k
  {
    if k < |steps| {
      forall g | Reads(steps[k], g)
        ensures g in state
      {
        StepIsSupplied(steps, k, state, g);
      }
      StepKeys(steps[k], k, state, final);
      var next := InvokeStep(steps[k], k, state, final);
      if next.Ok? {
        ReportedKeysSuffice(steps, k + 1, next.value.0, next.value.1);
      }
    }
  }

  /** A key that is read before anything produces it must come from the caller, or the run fails. */
  lemma {:induction false} UnproducedKeyIsNeeded(steps: seq<ChainStep>, k: nat, state: State, final: State,
                                                 i: nat, g: Key)
    requires k <= i < |steps| && Reads(steps[i], g) && g !in state
    requires forall j :: k <= j < i ==> !Writes(steps[j], g)
    ensures RunFrom(steps, k, state, final).Err?
    decreases |steps| - k
  {
    StepKeys(steps[k], k, state, final);
    var next := InvokeStep(steps[k], k, state, final);
    if next.Ok? {
      UnproducedKeyIsNeeded(steps, k + 1, next.value.0, next.value.1, i, g);
    }
  }

  /** `input_keys` is exact: in a well-ordered chain it is sufficient, and in any chain each key of it is necessary. */
  lemma InputKeysAreExact(c: SequentialChain, inputs: State)
    ensures WellOrdered(c.chains) && (forall g :: External(c.chains, g) ==> g in inputs) && c.Run(inputs).Err? ==>
              !c.Run(inputs).error.MissingInput?
    ensures forall g :: External(c.chains, g) && g !in inputs ==> c.Run(inputs).Err?
  {
    if WellOrdered(c.chains) && forall g :: External(c.chains, g) ==> g in inputs {
      assert Supplied(c.chains, 0, inputs);
      ReportedKeysSuffice(c.chains, 0, inputs, map[]);
    }
    forall g | External(c.chains, g) && g !in inputs
      ensures c.Run(inputs).Err?
    {
      var i :| 0 <= i < |c.chains| && Reads(c.chains[i], g);
      UnproducedKeyIsNeeded(c.chains, 0, inputs, map[], i, g);
    }
  }

  /** Outside well-ordered chains the reported keys are never enough on their own. */
  lemma MisorderedChainFails(c: SequentialChain, inputs: State)
    requires !WellOrdered(c.chains)
    requires forall g :: g in inputs ==> External(c.chains, g)
    ensures c.Run(inputs).Err?
  {
    var i, g :| 0 <= i < |c.chains| && Reads(c.chains[i], g) && WrittenBefore(c.chains, |c.chains|, g) &&
                !WrittenBefore(c.chains, i, g);
    UnproducedKeyIsNeeded(c.chains, 0, inputs, map[], i, g);
  }

  /** A step that reads "k" before the step that writes it: no key is reported, and without any the run misses "k". */
  lemma MisorderedPair(read: Chain, write: Chain)
    ensures var c := SequentialChain([ChainStep(read, [("in", "k")], []), ChainStep(write, [], [("out", "k")])]);
            && (forall g :: !External(c.chains, g))
            && c.Run(map[]) == Err(MissingInput(0, "in", "k"))
  {
    var first, second := ChainStep(read, [("in", "k")], []), ChainStep(write, [], [("out", "k")]);
    assert second.outputMapping[0] == ("out", "k") && Writes(second, "k");
    assert [first, second][1] == second;
    forall g
      ensures !External([first, second], g)
    {
      if i :| 0 <= i < 2 && Reads([first, second][i], g) {
        assert g == "k";
      }
    }
    assert first.inputMapping[..0] == [];
    assert Gather(first.inputMapping, map[], 0) == Err(MissingInput(0, "in", "k"));
  }
}
