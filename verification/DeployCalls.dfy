/** The deployer's calls as functions of the world, and a whole program as a list of calls. */
module DeployCalls {
  import opened GoWords
  import opened TxEvents
  import opened Submission

  /** The deployer's own state. `signer` is a copy made when it was set; only its name is used. */
  datatype Deployer = Deployer(signer: AccountInfo, isFirstDeploy: bool)

  datatype Call =
    | SyncAccount(name: string)
    | SetAccount(signer: AccountInfo)
    | SetFirstDeploy(isFirst: bool)
    | Upload(file: string, gasPrice: uint64)
    | UploadAndInstantiate(payload: Option<bytes>, file: string, gasPrice: uint64)

  /** The deployer's IncreaseSequence: the first call only clears the flag. */
  function IncreaseSequence(w: World, d: Deployer): (World, Deployer, bool) {
    if d.isFirstDeploy then (w, d.(isFirstDeploy := false), true)
    else if d.signer.name !in w.accounts then (w, d, false)
    else (Bump(w, d.signer.name), d, true)
  }

  /** Upload always bumps, whatever the flag says, and leaves the flag alone. */
  function DoUpload(env: Env, w: World, d: Deployer, file: string, gasPrice: uint64): (World, Outcome<uint64>) {
    if d.signer.name !in w.accounts then (w, Exit)
    else
      var (w1, r) := DeployContract(env, Bump(w, d.signer.name), d.signer.name, file, gasPrice);
      if r.Exit? then (w1, Exit)
      else
        var details := DetailsOf(r.value.events);
        if !details.Details? || ParseUint(details.codeId).None? then (w1, Exit)
        else (w1, Ok(ParseUint(details.codeId).value))
  }

  /** The store transaction of a pair and the code id parsed from its result. The extraction error
      is overwritten by the parse, so only the parse can fail here. */
  function StoreStage(env: Env, w: World, name: string, file: string, gasPrice: uint64): (World, Outcome<uint64>) {
    var (w', stored) := DeployContract(env, w, name, file, gasPrice);
    if stored.Exit? then (w', Exit)
    else
      var codeId := ParseUint(RawCodeId(DetailsOf(stored.value.events)));
      if codeId.None? then (w', Exit) else (w', Ok(codeId.value))
  }

  /** The instantiate transaction of a pair and the details extracted from its result. */
  function InstantiateStage(env: Env, w: World, name: string, codeId: uint64, payload: bytes)
    : (World, Outcome<Details>)
  {
    var (w', made) := InstantiateContract(env, w, name, codeId, payload, INSTANTIATE_GAS_PRICE);
    if made.Exit? || !DetailsOf(made.value.events).Details? then (w', Exit)
    else (w', Ok(DetailsOf(made.value.events)))
  }

  /** The second half of a pair: bump, instantiate, and read the new contract's details. */
  function FinishPair(env: Env, w: World, d: Deployer, codeId: uint64, payload: bytes)
    : (World, Deployer, Outcome<(uint64, string)>)
  {
    var (w1, d1, bumped) := IncreaseSequence(w, d);
    if !bumped then (w1, d1, Exit)
    else
      var (w2, made) := InstantiateStage(env, w1, d.signer.name, codeId, payload);
      if made.Exit? || ParseUint(made.value.codeId).None? then (w2, d1, Exit)
      else (w2, d1, Ok((ParseUint(made.value.codeId).value, made.value.address)))
  }

  /** `payload` is the marshalled instantiate message, if marshalling succeeds. */
  function DoUploadAndInstantiate(env: Env, w: World, d: Deployer,
                                  payload: Option<bytes>, file: string, gasPrice: uint64)
    : (World, Deployer, Outcome<(uint64, string)>)
  {
    var (w1, d1, bumped) := IncreaseSequence(w, d);
    if !bumped || payload.None? then (w1, d1, Exit)
    else
      var (w2, codeId) := StoreStage(env, w1, d.signer.name, file, gasPrice);
      if codeId.Exit? then (w2, d1, Exit)
      else FinishPair(env, w2, d1, codeId.value, payload.value)
  }

  /** One call; `true` when the process goes on afterwards. Both tools end on an error that a
      synchronisation returns to them. */
  function Step(env: Env, w: World, d: Deployer, c: Call): (World, Deployer, bool) {
    match c
    case SyncAccount(name) =>
      var (w', r) := Sync(env, w, name);
      (w', d, r.Synced?)
    case SetAccount(signer) => (w, d.(signer := signer), true)
    case SetFirstDeploy(isFirst) => (w, d.(isFirstDeploy := isFirst), true)
    case Upload(file, gasPrice) =>
      var (w', r) := DoUpload(env, w, d, file, gasPrice);
      (w', d, r.Ok?)
    case UploadAndInstantiate(payload, file, gasPrice) =>
      var (w', d', r) := DoUploadAndInstantiate(env, w, d, payload, file, gasPrice);
      (w', d', r.Ok?)
  }

  /** A program: calls in order until the list or the process ends. */
  function Run(env: Env, w: World, d: Deployer, calls: seq<Call>): (World, Deployer, bool)
    decreases |calls|
  {
    if calls == [] then (w, d, true)
    else
      var (w', d', goesOn) := Step(env, w, d, calls[0]);
      if goesOn then Run(env, w', d', calls[1..]) else (w', d', false)
  }
}
