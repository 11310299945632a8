/** When a program of deployer calls signs only with the sequence the chain expects. */
module SequenceDiscipline {
  import opened GoWords
  import opened ChainModel
  import opened Submission
  import opened DeployCalls

  /** How an account's local counter relates to the chain's: equal, one behind, or neither. */
  datatype Standing = Level | Behind | Astray

  /** All that a caller needs to track between calls. */
  datatype Book = Book(isFirstDeploy: bool, signer: string, standing: map<string, Standing>)

  function StandingOf(w: World, name: string): Standing
    requires name in w.accounts
  {
    var chain := Expected(w.ledger, w.accounts[name].address);
    if w.accounts[name].sequence == chain then Level
    else if Next(w.accounts[name].sequence) == chain then Behind
    else Astray
  }

  function BookOf(w: World, d: Deployer): Book {
    Book(d.isFirstDeploy, d.signer.name, map n | n in w.accounts :: StandingOf(w, n))
  }

  /** The guard a caller can check before a call. */
  predicate Allowed(b: Book, c: Call) {
    match c
    case Upload(_, _) => b.signer in b.standing && b.standing[b.signer].Behind?
    case UploadAndInstantiate(_, _, _) =>
      b.signer in b.standing && b.standing[b.signer] == if b.isFirstDeploy then Level else Behind
    case _ => true
  }

  /** What an allowed call that completes leaves behind. */
  function BookAfter(b: Book, c: Call): Book {
    match c
    case SyncAccount(name) => if name in b.standing then b.(standing := b.standing[name := Level]) else b
    case SetAccount(signer) => b.(signer := signer.name)
    case SetFirstDeploy(isFirst) => b.(isFirstDeploy := isFirst)
    case Upload(_, _) => b
    case UploadAndInstantiate(_, _, _) =>
      b.(isFirstDeploy := false, standing := b.standing[b.signer := Behind])
  }

  predicate AllAllowed(b: Book, calls: seq<Call>)
    decreases |calls|
  {
    calls == [] || (Allowed(b, calls[0]) && AllAllowed(BookAfter(b, calls[0]), calls[1..]))
  }

  /** How many transactions of account `name` an allowed call executes on its way to completion. */
  function Weight(b: Book, c: Call, name: string): nat {
    if b.signer != name then 0
    else match c
      case Upload(_, _) => 1
      case UploadAndInstantiate(_, _, _) => 2
      case _ => 0
  }

  /** The chain's counter stays below 2^64 through `k` more transactions of the account. */
  ghost predicate Room(w: World, name: string, k: nat) {
    name in w.accounts ==> Expected(w.ledger, w.accounts[name].address) + k < TWO_64
  }

  ghost predicate AllRightFrom(w: World, from: nat) {
    forall i :: from <= i < |w.signed| ==> Right(w.signed[i])
  }

  /** `w'` extends the history of `w`. */
  ghost predicate Extends(w: World, w': World) {
    && |w.signed| <= |w'.signed| && w'.signed[..|w.signed|] == w.signed
    && w'.accounts.Keys == w.accounts.Keys && w'.keyring == w.keyring
    && forall n :: n in w.accounts ==> w'.accounts[n].address == w.accounts[n].address
  }

  /** One step of an allowed call: right signings, and on completion a settled world with the
      predicted book. */
  ghost predicate Kept(w: World, d: Deployer, c: Call, w': World, d': Deployer, goesOn: bool) {
    && Extends(w, w')
    && AllRightFrom(w', |w.signed|)
    && (goesOn ==> && Settled(w') && (NoneAhead(w.ledger) ==> NoneAhead(w'.ledger))
                   && BookOf(w', d') == BookAfter(BookOf(w, d), c)
                   && forall n :: n in w.accounts ==>
                        Expected(w'.ledger, w.accounts[n].address) ==
                        Expected(w.ledger, w.accounts[n].address) + Weight(BookOf(w, d), c, n))
  }

  /** `name` alone moved: the chain executed `k` transactions of it, and its counter is now behind. */
  ghost predicate Landed(w: World, name: string, k: nat, w': World) {
    && Settled(w') && Extends(w, w') && (NoneAhead(w.ledger) ==> NoneAhead(w'.ledger))
    && (forall n :: n in w.accounts ==>
          && Expected(w'.ledger, w.accounts[n].address) ==
             Expected(w.ledger, w.accounts[n].address) + (if n == name then k else 0)
          && StandingOf(w', n) == if n == name then Behind else StandingOf(w, n))
  }

  lemma ExecutedLands(w: World, name: string, tx: Tx, r: TxResult, w': World)
    requires Settled(w) && Settled(w') && Room(w, name, 1)
    requires name in w.accounts && tx.msg.sender == w.accounts[name].address && StandingOf(w, name).Level?
    requires w'.accounts == w.accounts && w'.keyring == w.keyring && tx.sequence == w.accounts[name].sequence
    requires w'.ledger == After(w.ledger, tx, Executed(r))
    requires |w'.signed| == |w.signed| + 1 && w'.signed[..|w.signed|] == w.signed
    ensures Landed(w, name, 1, w')
  {
    ExecutedStaysPast(w.ledger, tx, r);
    forall n | n in w.accounts
      ensures Expected(w'.ledger, w.accounts[n].address) ==
              Expected(w.ledger, w.accounts[n].address) + (if n == name then 1 else 0)
      ensures StandingOf(w', n) == if n == name then Behind else StandingOf(w, n)
    {
      assert w.accounts[n].address == w.accounts[name].address <==> n == name;
    }
  }

  /** A submission from a level counter. */
  lemma SubmitLevel(env: Env, w: World, name: string, msg: Msg, override: uint64)
    requires Settled(w) && Room(w, name, 1)
    requires name in w.accounts && msg.sender == w.accounts[name].address && StandingOf(w, name).Level?
    ensures var (w', r) := Submit(env, w, name, msg, override);
            Extends(w, w') && AllRightFrom(w', |w.signed|) && (r.Ok? ==> Landed(w, name, 1, w'))
  {
    SubmitRight(env, w, name, msg, override);
    var (w', r) := Submit(env, w, name, msg, override);
    if r.Ok? {
      ExecutedLands(w, name, w'.signed[|w.signed|].tx, r.value, w');
    }
  }

  lemma DeployLevel(env: Env, w: World, name: string, file: string, override: uint64)
    requires Settled(w) && Room(w, name, 1)
    requires name in w.accounts && StandingOf(w, name).Level?
    ensures var (w', r) := DeployContract(env, w, name, file, override);
            Extends(w, w') && AllRightFrom(w', |w.signed|) && (r.Ok? ==> Landed(w, name, 1, w'))
  {
    if env.files(w.clock, file).Some? {
      SubmitLevel(env, w, name, StoreCode(w.accounts[name].address, env.files(w.clock, file).value), override);
    }
  }

  lemma ExtendsRight(w: World, w1: World, w2: World)
    requires Extends(w, w1) && AllRightFrom(w1, |w.signed|)
    requires Extends(w1, w2) && AllRightFrom(w2, |w1.signed|)
    ensures Extends(w, w2) && AllRightFrom(w2, |w.signed|)
  {
    assert w2.signed[..|w.signed|] == w1.signed[..|w.signed|];
    forall i | |w.signed| <= i < |w2.signed| ensures Right(w2.signed[i]) {
      if i < |w1.signed| {
        assert w2.signed[i] == w2.signed[..|w1.signed|][i] == w1.signed[i];
      }
    }
  }

  /** Bumping a counter that is behind makes it level and disturbs no other. */
  lemma BumpLevels(w: World, name: string)
    requires Settled(w) && name in w.accounts && StandingOf(w, name).Behind?
    ensures var w' := Bump(w, name);
            && Settled(w') && Extends(w, w') && w'.signed == w.signed && w'.ledger == w.ledger
            && forall n :: n in w.accounts ==> StandingOf(w', n) == if n == name then Level else StandingOf(w, n)
  {
  }

  /** The deployer's IncreaseSequence before an allowed call: the counter comes out level. */
  lemma IncreaseLevels(w: World, d: Deployer)
    requires Settled(w) && d.signer.name in w.accounts
    requires StandingOf(w, d.signer.name) == if d.isFirstDeploy then Level else Behind
    ensures var (w', d', bumped) := IncreaseSequence(w, d);
            && bumped && d' == d.(isFirstDeploy := false)
            && Settled(w') && Extends(w, w') && w'.signed == w.signed && w'.ledger == w.ledger
            && forall n :: n in w.accounts ==>
                 StandingOf(w', n) == if n == d.signer.name then Level else StandingOf(w, n)
  {
    if !d.isFirstDeploy {
      BumpLevels(w, d.signer.name);
    }
  }

  /** `w1` differs from `w` only in that `name` is level, and `w2` landed from there. */
  lemma LandAfterLevel(w: World, w1: World, name: string, k: nat, w2: World)
    requires Extends(w, w1) && w1.ledger == w.ledger && w1.signed == w.signed
    requires forall n :: n in w.accounts && n != name ==> StandingOf(w1, n) == StandingOf(w, n)
    requires Landed(w1, name, k, w2)
    ensures Landed(w, name, k, w2)
  {
  }

  lemma LandTwice(w: World, name: string, w1: World, w2: World, w3: World)
    requires Landed(w, name, 1, w1)
    requires Extends(w1, w2) && w2.ledger == w1.ledger && w2.signed == w1.signed
    requires forall n :: n in w.accounts && n != name ==> StandingOf(w2, n) == StandingOf(w1, n)
    requires Landed(w2, name, 1, w3)
    ensures Landed(w, name, 2, w3)
  {
    LandAfterLevel(w1, w2, name, 1, w3);
    assert w3.signed[..|w.signed|] == w1.signed[..|w.signed|];
  }

  /** A landing of the signer is what the book predicts for a deploying call. */
  lemma LandedIsKept(w: World, d: Deployer, c: Call, w': World, d': Deployer)
    requires d.signer.name in w.accounts
    requires d'.signer == d.signer && AllRightFrom(w', |w.signed|)
    requires match c
             case Upload(_, _) => StandingOf(w, d.signer.name).Behind? && Landed(w, d.signer.name, 1, w') && d' == d
             case UploadAndInstantiate(_, _, _) => Landed(w, d.signer.name, 2, w') && !d'.isFirstDeploy
             case _ => false
    ensures Kept(w, d, c, w', d', true)
  {
    assert BookOf(w', d').standing == BookAfter(BookOf(w, d), c).standing;
  }

  lemma UploadLands(env: Env, w: World, d: Deployer, file: string, gasPrice: uint64)
    requires Settled(w) && Room(w, d.signer.name, 1)
    requires d.signer.name in w.accounts && StandingOf(w, d.signer.name).Behind?
    ensures var (w', r) := DoUpload(env, w, d, file, gasPrice);
            Extends(w, w') && AllRightFrom(w', |w.signed|) && (r.Ok? ==> Landed(w, d.signer.name, 1, w'))
  {
    var name := d.signer.name;
    BumpLevels(w, name);
    var w1 := Bump(w, name);
    DeployLevel(env, w1, name, file, gasPrice);
    var (w2, r) := DeployContract(env, w1, name, file, gasPrice);
    ExtendsRight(w, w1, w2);
    if r.Ok? {
      LandAfterLevel(w, w1, name, 1, w2);
    }
  }

  /** The first half of a pair. */
  lemma StoreLands(env: Env, w: World, d: Deployer, file: string, gasPrice: uint64)
    requires Settled(w) && Room(w, d.signer.name, 1) && d.signer.name in w.accounts
    requires StandingOf(w, d.signer.name) == if d.isFirstDeploy then Level else Behind
    ensures var (w1, d1, bumped) := IncreaseSequence(w, d);
            var (w2, r) := StoreStage(env, w1, d.signer.name, file, gasPrice);
            bumped && d1 == d.(isFirstDeploy := false) && Extends(w, w1) && w1.signed == w.signed
            && Extends(w, w2) && AllRightFrom(w2, |w.signed|)
            && (r.Ok? ==> Landed(w, d.signer.name, 1, w2))
  {
    var name := d.signer.name;
    IncreaseLevels(w, d);
    var (w1, d1, _) := IncreaseSequence(w, d);
    DeployLevel(env, w1, name, file, gasPrice);
    var (w2, stored) := DeployContract(env, w1, name, file, gasPrice);
    ExtendsRight(w, w1, w2);
    if stored.Ok? {
      LandAfterLevel(w, w1, name, 1, w2);
    }
  }

  lemma InstantiateLevel(env: Env, w: World, name: string, codeId: uint64, payload: bytes)
    requires Settled(w) && Room(w, name, 1) && name in w.accounts && StandingOf(w, name).Level?
    ensures var (w', r) := InstantiateStage(env, w, name, codeId, payload);
            Extends(w, w') && AllRightFrom(w', |w.signed|) && (r.Ok? ==> Landed(w, name, 1, w'))
  {
    SubmitLevel(env, w, name, Instantiate(w.accounts[name].address, codeId, payload), INSTANTIATE_GAS_PRICE);
  }

  /** The second half of a pair, from the world its store transaction landed in. */
  lemma InstantiateLands(env: Env, w: World, w2: World, d: Deployer, codeId: uint64, payload: bytes)
    requires Room(w, d.signer.name, 2) && d.signer.name in w.accounts && !d.isFirstDeploy
    requires Landed(w, d.signer.name, 1, w2) && AllRightFrom(w2, |w.signed|)
    ensures var (w', d', r) := FinishPair(env, w2, d, codeId, payload);
            d' == d && Extends(w, w') && AllRightFrom(w', |w.signed|)
            && (r.Ok? ==> Landed(w, d.signer.name, 2, w'))
  {
    var name := d.signer.name;
    BumpLevels(w2, name);
    var w3 := Bump(w2, name);
    InstantiateLevel(env, w3, name, codeId, payload);
    var (w4, made) := InstantiateStage(env, w3, name, codeId, payload);
    ExtendsRight(w, w2, w3);
    ExtendsRight(w, w3, w4);
    if made.Ok? {
      LandTwice(w, name, w2, w3, w4);
    }
  }

  lemma PairLands(env: Env, w: World, d: Deployer, payload: Option<bytes>, file: string, gasPrice: uint64)
    requires Settled(w) && Room(w, d.signer.name, 2) && d.signer.name in w.accounts
    requires StandingOf(w, d.signer.name) == if d.isFirstDeploy then Level else Behind
    ensures var (w', d', r) := DoUploadAndInstantiate(env, w, d, payload, file, gasPrice);
            Extends(w, w') && AllRightFrom(w', |w.signed|)
            && d' == d.(isFirstDeploy := false)
            && (r.Ok? ==> Landed(w, d.signer.name, 2, w'))
  {
    StoreLands(env, w, d, file, gasPrice);
    var (w1, d1, _) := IncreaseSequence(w, d);
    if payload.Some? {
      var (w2, codeId) := StoreStage(env, w1, d.signer.name, file, gasPrice);
      if codeId.Ok? {
        InstantiateLands(env, w, w2, d1, codeId.value, payload.value);
      }
    }
  }

  lemma SyncAllowed(env: Env, w: World, d: Deployer, name: string)
    requires Settled(w)
    ensures var c := SyncAccount(name);
            var (w', d', goesOn) := Step(env, w, d, c);
            Kept(w, d, c, w', d', goesOn)
  {
    IdlePoolStaysIdle(w.ledger, env.weather(w.clock).deliveries);
    var c := SyncAccount(name);
    var (w', d', goesOn) := Step(env, w, d, c);
    assert Extends(w, w');
    assert AllRightFrom(w', |w.signed|);
    if goesOn {
      assert Settled(w');
      assert BookOf(w', d').standing == BookAfter(BookOf(w, d), c).standing;
    }
  }

  /** Every allowed call, in every environment, signs only right transactions, and if the process
      goes on the world is settled again with the book the caller predicted. */
  lemma StepAllowed(env: Env, w: World, d: Deployer, c: Call)
    requires Settled(w) && Allowed(BookOf(w, d), c)
    requires Room(w, d.signer.name, Weight(BookOf(w, d), c, d.signer.name))
    ensures var (w', d', goesOn) := Step(env, w, d, c);
            Kept(w, d, c, w', d', goesOn)
  {
    match c
    case SyncAccount(name) => SyncAllowed(env, w, d, name);
    case SetAccount(signer) => assert BookOf(w, d.(signer := signer)) == BookAfter(BookOf(w, d), c);
    case SetFirstDeploy(isFirst) => assert BookOf(w, d.(isFirstDeploy := isFirst)) == BookAfter(BookOf(w, d), c);
    case Upload(file, gasPrice) =>
      UploadLands(env, w, d, file, gasPrice);
      var (w', r) := DoUpload(env, w, d, file, gasPrice);
      if r.Ok? { LandedIsKept(w, d, c, w', d); }
    case UploadAndInstantiate(payload, file, gasPrice) =>
      PairLands(env, w, d, payload, file, gasPrice);
      var (w', d', r) := DoUploadAndInstantiate(env, w, d, payload, file, gasPrice);
      if r.Ok? { LandedIsKept(w, d, c, w', d'); }
  }
}
