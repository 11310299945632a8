/** Whole programs: which sequences are signed and committed, and when that is right. */
module SequenceTheorems {
  import opened GoWords
  import opened ChainModel
  import opened Submission
  import opened DeployCalls
  import opened SequenceDiscipline

  // ----- no gap and no repeat -----

  /** The sequences signed for an address, in order. */
  function SignedSequences(signed: seq<Signing>, address: string): seq<int> {
    if signed == [] then []
    else
      var front := SignedSequences(signed[..|signed| - 1], address);
      var last := signed[|signed| - 1];
      if last.tx.msg.sender == address then front + [last.tx.sequence] else front
  }

  function NewlySigned(w0: World, w: World, name: string): seq<int>
    requires |w0.signed| <= |w.signed| && name in w0.accounts
  {
    SignedSequences(w.signed[|w0.signed|..], w0.accounts[name].address)
  }

  function NewlyExecuted(w0: World, w: World, name: string): seq<int>
    requires |w0.ledger.included| <= |w.ledger.included| && name in w0.accounts
  {
    ExecutedSequences(w.ledger.included[|w0.ledger.included|..], w0.accounts[name].address)
  }

  /** Since `w0`, the chain executed exactly the sequences of account `n` from the first expected one
      up, in order, and exactly those were signed, except that the last one signed may be open. */
  ghost predicate Gapless(w0: World, w: World, n: string, open: bool) {
    && Extends(w0, w) && n in w0.accounts
    && |w0.ledger.included| <= |w.ledger.included|
    && var from := Expected(w0.ledger, w0.accounts[n].address);
       var to := Expected(w.ledger, w0.accounts[n].address);
       && from <= to
       && NewlyExecuted(w0, w, n) == Range(from, to)
       && (NewlySigned(w0, w, n) == Range(from, to) || (open && NewlySigned(w0, w, n) == Range(from, to + 1)))
  }

  lemma SignedOneMore(w0: World, w: World, w': World, name: string)
    requires |w0.signed| <= |w.signed| && |w'.signed| == |w.signed| + 1 && w'.signed[..|w.signed|] == w.signed
    requires name in w0.accounts
    ensures NewlySigned(w0, w', name) ==
            NewlySigned(w0, w, name) +
            var tx := w'.signed[|w.signed|].tx;
            (if tx.msg.sender == w0.accounts[name].address then [tx.sequence] else [])
  {
    var k := |w0.signed|;
    var fresh' := w'.signed[k..];
    assert fresh'[..|fresh'| - 1] == w.signed[k..];
    assert fresh'[|fresh'| - 1] == w'.signed[|w.signed|];
  }

  lemma ExecutedByFate(w0: World, w: World, tx: Tx, f: Fate, w': World, name: string)
    requires |w0.ledger.included| <= |w.ledger.included| && w'.ledger == After(w.ledger, tx, f)
    requires name in w0.accounts
    ensures NewlyExecuted(w0, w', name) ==
            NewlyExecuted(w0, w, name) +
            (if f.Executed? && tx.msg.sender == w0.accounts[name].address then [tx.sequence] else [])
  {
    var k := |w0.ledger.included|;
    if f.Executed? || f.Refused? {
      var fresh' := w'.ledger.included[k..];
      assert fresh'[..|fresh'| - 1] == w.ledger.included[k..];
    }
  }

  /** One right submission extends the chronicle by one number, or leaves one open. */
  lemma SubmissionGapless(w0: World, w: World, n: string, name: string, f: Fate, w': World)
    requires Settled(w) && Gapless(w0, w, n, false) && Extends(w, w')
    requires name in w0.accounts && StandingOf(w, name).Level? && Room(w, name, 1)
    requires |w'.signed| == |w.signed| + 1
    requires var tx := w'.signed[|w.signed|].tx;
             && tx.msg.sender == w.accounts[name].address && tx.sequence == w.accounts[name].sequence
             && w'.ledger == After(w.ledger, tx, f)
    ensures Gapless(w0, w', n, !f.Executed?)
  {
    assert w'.signed[..|w0.signed|] == w.signed[..|w0.signed|];
    var tx := w'.signed[|w.signed|].tx;
    SignedOneMore(w0, w, w', n);
    ExecutedByFate(w0, w, tx, f, w', n);
    assert w.accounts[n].address == w.accounts[name].address <==> n == name;
  }

  lemma SubmitGapless(env: Env, w0: World, w: World, n: string, name: string, msg: Msg, override: uint64)
    requires Settled(w) && Gapless(w0, w, n, false) && Room(w, name, 1)
    requires name in w0.accounts && msg.sender == w.accounts[name].address && StandingOf(w, name).Level?
    ensures var (w', r) := Submit(env, w, name, msg, override); Gapless(w0, w', n, r.Exit?)
  {
    SubmitRight(env, w, name, msg, override);
    SubmitLevel(env, w, name, msg, override);
    var (w', r) := Submit(env, w, name, msg, override);
    if w'.signed != w.signed {
      var tx := w'.signed[|w.signed|].tx;
      if r.Ok? {
        SubmissionGapless(w0, w, n, name, Executed(r.value), w');
      } else {
        var f :| w'.ledger == After(w.ledger, tx, f);
        SubmissionGapless(w0, w, n, name, f, w');
      }
    }
  }

  lemma DeployGapless(env: Env, w0: World, w: World, n: string, name: string, file: string, override: uint64)
    requires Settled(w) && Gapless(w0, w, n, false) && Room(w, name, 1)
    requires name in w0.accounts && StandingOf(w, name).Level?
    ensures var (w', r) := DeployContract(env, w, name, file, override); Gapless(w0, w', n, r.Exit?)
  {
    if env.files(w.clock, file).Some? {
      SubmitGapless(env, w0, w, n, name, StoreCode(w.accounts[name].address, env.files(w.clock, file).value), override);
    }
  }

  /** Bumping or setting counters leaves the chronicle alone. */
  lemma CountersGapless(w0: World, w: World, n: string, w': World)
    requires Gapless(w0, w, n, false) && Extends(w, w') && w'.signed == w.signed && w'.ledger == w.ledger
    ensures Gapless(w0, w', n, false)
  {
  }

  lemma UploadGapless(env: Env, w0: World, w: World, n: string, d: Deployer, file: string, gasPrice: uint64)
    requires Settled(w) && Gapless(w0, w, n, false) && Room(w, d.signer.name, 1)
    requires d.signer.name in w0.accounts && StandingOf(w, d.signer.name).Behind?
    ensures var (w', r) := DoUpload(env, w, d, file, gasPrice);
            Gapless(w0, w', n, true) && (r.Ok? ==> Gapless(w0, w', n, false))
  {
    BumpLevels(w, d.signer.name);
    var w1 := Bump(w, d.signer.name);
    CountersGapless(w0, w, n, w1);
    DeployGapless(env, w0, w1, n, d.signer.name, file, gasPrice);
  }

  lemma StoreGapless(env: Env, w0: World, w: World, n: string, d: Deployer, file: string, gasPrice: uint64)
    requires Settled(w) && Gapless(w0, w, n, false) && Room(w, d.signer.name, 1)
    requires d.signer.name in w0.accounts
    requires StandingOf(w, d.signer.name) == if d.isFirstDeploy then Level else Behind
    ensures var (w1, _, _) := IncreaseSequence(w, d);
            var (w2, r) := StoreStage(env, w1, d.signer.name, file, gasPrice);
            Gapless(w0, w1, n, true) && Gapless(w0, w2, n, true) && (r.Ok? ==> Gapless(w0, w2, n, false))
  {
    var name := d.signer.name;
    IncreaseLevels(w, d);
    var (w1, _, _) := IncreaseSequence(w, d);
    CountersGapless(w0, w, n, w1);
    DeployGapless(env, w0, w1, n, name, file, gasPrice);
  }

  /** A landed store transaction leaves the counter ready for the instantiate transaction. */
  lemma StoreReady(env: Env, w: World, d: Deployer, file: string, gasPrice: uint64)
    requires Settled(w) && Room(w, d.signer.name, 2) && d.signer.name in w.accounts
    requires StandingOf(w, d.signer.name) == if d.isFirstDeploy then Level else Behind
    ensures var (w1, d1, bumped) := IncreaseSequence(w, d);
            var (w2, r) := StoreStage(env, w1, d.signer.name, file, gasPrice);
            bumped && d1 == d.(isFirstDeploy := false)
            && (r.Ok? ==> && Settled(w2) && (NoneAhead(w.ledger) ==> NoneAhead(w2.ledger)) && Room(w2, d.signer.name, 1)
                          && d.signer.name in w2.accounts && StandingOf(w2, d.signer.name).Behind?)
  {
    StoreLands(env, w, d, file, gasPrice);
  }

  lemma FinishGapless(env: Env, w0: World, w: World, n: string, d: Deployer, codeId: uint64, payload: bytes)
    requires Settled(w) && Gapless(w0, w, n, false) && Room(w, d.signer.name, 1)
    requires d.signer.name in w0.accounts && !d.isFirstDeploy && StandingOf(w, d.signer.name).Behind?
    ensures var (w', _, r) := FinishPair(env, w, d, codeId, payload);
            Gapless(w0, w', n, true) && (r.Ok? ==> Gapless(w0, w', n, false))
  {
    var name := d.signer.name;
    BumpLevels(w, name);
    var w1 := Bump(w, name);
    CountersGapless(w0, w, n, w1);
    InstantiateGapless(env, w0, w1, n, name, codeId, payload);
  }

  lemma InstantiateGapless(env: Env, w0: World, w: World, n: string, name: string, codeId: uint64, payload: bytes)
    requires Settled(w) && Gapless(w0, w, n, false) && Room(w, name, 1)
    requires name in w0.accounts && StandingOf(w, name).Level?
    ensures var (w', r) := InstantiateStage(env, w, name, codeId, payload);
            Gapless(w0, w', n, true) && (r.Ok? ==> Gapless(w0, w', n, false))
  {
    SubmitGapless(env, w0, w, n, name, Instantiate(w.accounts[name].address, codeId, payload), INSTANTIATE_GAS_PRICE);
  }

  lemma PairGapless(env: Env, w0: World, w: World, n: string, d: Deployer,
                    payload: Option<bytes>, file: string, gasPrice: uint64)
    requires Settled(w) && Gapless(w0, w, n, false) && Room(w, d.signer.name, 2)
    requires d.signer.name in w0.accounts
    requires StandingOf(w, d.signer.name) == if d.isFirstDeploy then Level else Behind
    ensures var (w', d', r) := DoUploadAndInstantiate(env, w, d, payload, file, gasPrice);
            Gapless(w0, w', n, true) && (r.Ok? ==> Gapless(w0, w', n, false))
  {
    assert d.signer.name in w.accounts;
    hide Gapless, Settled, NoneAhead, StoreStage, FinishPair, IncreaseSequence;
    StoreGapless(env, w0, w, n, d, file, gasPrice);
    StoreReady(env, w, d, file, gasPrice);
    var (w1, d1, _) := IncreaseSequence(w, d);
    if payload.Some? {
      var (w2, codeId) := StoreStage(env, w1, d.signer.name, file, gasPrice);
      if codeId.Ok? {
        FinishGapless(env, w0, w2, n, d1, codeId.value, payload.value);
      }
    }
  }

  lemma StepGapless(env: Env, w0: World, w: World, n: string, d: Deployer, c: Call)
    requires Settled(w) && Gapless(w0, w, n, false) && Allowed(BookOf(w, d), c)
    requires Room(w, d.signer.name, Weight(BookOf(w, d), c, d.signer.name))
    ensures var (w', d', goesOn) := Step(env, w, d, c);
            Gapless(w0, w', n, true) && (goesOn ==> Gapless(w0, w', n, false))
  {
    match c
    case SyncAccount(name) =>
      IdlePoolStaysIdle(w.ledger, env.weather(w.clock).deliveries);
      SyncAllowed(env, w, d, name);
      var (w', _, _) := Step(env, w, d, c);
      CountersGapless(w0, w, n, w');
    case SetAccount(signer) =>
    case SetFirstDeploy(isFirst) =>
    case Upload(file, gasPrice) => UploadGapless(env, w0, w, n, d, file, gasPrice);
    case UploadAndInstantiate(payload, file, gasPrice) => PairGapless(env, w0, w, n, d, payload, file, gasPrice);
  }

  /** How many transactions of an account a program executes on its way to the first call that is
      not allowed, or to completion. */
  function Total(b: Book, calls: seq<Call>, name: string): nat
    decreases |calls|
  {
    if calls == [] || !Allowed(b, calls[0]) then 0
    else Weight(b, calls[0], name) + Total(BookAfter(b, calls[0]), calls[1..], name)
  }

  function FinalBook(b: Book, calls: seq<Call>): Book
    decreases |calls|
  {
    if calls == [] then b else FinalBook(BookAfter(b, calls[0]), calls[1..])
  }

  /** Each account's counter on the chain has room for what the program executes of that account. */
  ghost predicate RoomFor(w: World, d: Deployer, calls: seq<Call>) {
    forall n :: n in w.accounts ==>
      Expected(w.ledger, w.accounts[n].address) + Total(BookOf(w, d), calls, n) < TWO_64
  }

  /** Room for a program is room for its first call, and after it room for the rest. */
  lemma RoomForFirst(w: World, d: Deployer, calls: seq<Call>)
    requires RoomFor(w, d, calls) && calls != [] && Allowed(BookOf(w, d), calls[0])
    ensures Room(w, d.signer.name, Weight(BookOf(w, d), calls[0], d.signer.name))
  {
  }

  lemma RoomForRest(w: World, d: Deployer, calls: seq<Call>, w1: World, d1: Deployer)
    requires RoomFor(w, d, calls) && calls != [] && Allowed(BookOf(w, d), calls[0])
    requires Kept(w, d, calls[0], w1, d1, true)
    ensures RoomFor(w1, d1, calls[1..])
  {
    forall n | n in w1.accounts
      ensures Expected(w1.ledger, w1.accounts[n].address) + Total(BookOf(w1, d1), calls[1..], n) < TWO_64
    {
      assert n in w.accounts;
    }
  }

  lemma {:induction false} RunGapless(env: Env, w0: World, w: World, n: string, d: Deployer, calls: seq<Call>)
    requires Settled(w) && Gapless(w0, w, n, false) && RoomFor(w, d, calls) && AllAllowed(BookOf(w, d), calls)
    ensures var (w', d', done) := Run(env, w, d, calls);
            && Gapless(w0, w', n, true) && (done ==> Gapless(w0, w', n, false))
            && Extends(w, w') && AllRightFrom(w', |w.signed|)
            && (done ==> && Settled(w') && BookOf(w', d') == FinalBook(BookOf(w, d), calls)
                         && forall n :: n in w.accounts ==>
                              Expected(w'.ledger, w.accounts[n].address) ==
                              Expected(w.ledger, w.accounts[n].address) + Total(BookOf(w, d), calls, n))
    decreases |calls|
  {
    if calls != [] {
      RoomForFirst(w, d, calls);
      StepAllowed(env, w, d, calls[0]);
      StepGapless(env, w0, w, n, d, calls[0]);
      var (w1, d1, goesOn) := Step(env, w, d, calls[0]);
      if goesOn {
        RoomForRest(w, d, calls, w1, d1);
        RunGapless(env, w0, w1, n, d1, calls[1..]);
        var (w2, _, _) := Run(env, w1, d1, calls[1..]);
        ExtendsRight(w, w1, w2);
      }
    }
  }

  /** MAIN THEOREM. An allowed program, in every environment: each signed transaction carries exactly
      the sequence the chain expects with nothing else in flight; for every account the signed and
      the committed sequences are S, S+1, ... without gap or repeat, at most the last signed one
      being uncommitted; and a program that completes has committed everything it signed. */
  lemma AllowedProgram(env: Env, w: World, d: Deployer, calls: seq<Call>,
                       w': World, d': Deployer, done: bool, n: string)
    requires Settled(w) && RoomFor(w, d, calls) && AllAllowed(BookOf(w, d), calls) && n in w.accounts
    requires Run(env, w, d, calls) == (w', d', done)
    ensures Extends(w, w') && AllRightFrom(w', |w.signed|)
    ensures |w.ledger.included| <= |w'.ledger.included|
    ensures var first := Expected(w.ledger, w.accounts[n].address);
            var end := Expected(w'.ledger, w.accounts[n].address);
            && NewlyExecuted(w, w', n) == Range(first, end)
            && (|| NewlySigned(w, w', n) == Range(first, end)
                || (!done && NewlySigned(w, w', n) == Range(first, end + 1)))
            && (done ==> end == first + Total(BookOf(w, d), calls, n))
    ensures done ==> Settled(w') && BookOf(w', d') == FinalBook(BookOf(w, d), calls)
  {
    assert w.signed[|w.signed|..] == [] && w.ledger.included[|w.ledger.included|..] == [];
    RunGapless(env, w, w, n, d, calls);
  }
}
