/** Signing a transaction with the local sequence counter, broadcasting it without waiting, and
    polling until the chain reports it: what DeployContract and InstantiateContract both do. */
module Submission {
  import opened GoWords
  import opened ChainModel

  datatype AccountInfo = AccountInfo(name: string, mnemonic: string, sequence: uint64, number: uint64, address: string)

  /** What one RPC call meets: what the chain did since the last call, whether the reply arrived,
      the reply code, and whether the reply's value can be decoded. */
  datatype Weather = Weather(deliveries: seq<Delivery>, transport: bool, code: nat, decodes: bool)

  /** The surroundings of the process, all by the number of RPC calls made so far: which transactions the
      SDK manages to build, sign and encode, the content of the files it can read, and the weather of
      each call. */
  datatype Env = Env(accepts: (nat, Tx) -> bool, files: (nat, string) -> Option<bytes>, weather: nat -> Weather)

  /** A record of one signing: the chain's expected sequence and pool at that moment, and how many
      earlier transactions WaitTx had not yet confirmed. */
  datatype Signing = Signing(tx: Tx, expected: uint64, pool: seq<Tx>, awaiting: int)

  datatype Confirmation = Confirmation(tx: Tx, result: TxResult)

  /** The client's accounts, its keyring (the name under which the key of an address is held), the
      ledger, the number of RPC calls made, and the history. */
  datatype World = World(accounts: map<string, AccountInfo>, keyring: map<string, string>,
                         ledger: Ledger, clock: nat,
                         signed: seq<Signing>, confirmed: seq<Confirmation>)

  /** `Exit` stands for zap's Fatal, or a panic: the process has ended. */
  datatype Outcome<+T> = Ok(value: T) | Exit

  datatype SignOutcome = Signed(tx: Tx) | SignFailed | SignPanicked

  const POLLS: nat := 30
  const DEFAULT_FEE: int := 100000
  const INSTANTIATE_GAS_PRICE: uint64 := 2000000

  /** The fee of a gas price override: the SDK's coin constructor panics on a negative amount. */
  function FeeFor(override: uint64): int {
    if override == 0 then DEFAULT_FEE else ToInt64(override)
  }

  function SignTx(accepts: (nat, Tx) -> bool, t: nat, accounts: map<string, AccountInfo>, keys: set<string>,
                  name: string, msg: Msg, override: uint64): SignOutcome {
    if name !in keys || name !in accounts then SignFailed
    else if FeeFor(override) < 0 then SignPanicked
    else
      var tx := Tx(accounts[name].number, accounts[name].sequence, FeeFor(override), FeeFor(override) * 2, msg);
      if accepts(t, tx) then Signed(tx) else SignFailed
  }

  function Sign(env: Env, w: World, name: string, msg: Msg, override: uint64): SignOutcome {
    SignTx(env.accepts, w.clock, w.accounts, w.keyring.Values, name, msg, override)
  }

  function SigningOf(w: World, tx: Tx): Signing {
    Signing(tx, Expected(w.ledger, tx.msg.sender), w.ledger.pool, |w.signed| - |w.confirmed|)
  }

  /** BroadcastTxAsync: the transaction enters the pool when the node took the request, even if the
      reply was lost on the way back. */
  function Broadcast(env: Env, w: World, tx: Tx): (World, bool) {
    var t := env.weather(w.clock);
    var l := Advance(w.ledger, t.deliveries);
    var l' := if t.code == 0 then l.(pool := l.pool + [tx]) else l;
    (w.(ledger := l', clock := w.clock + 1), t.transport && t.code == 0)
  }

  /** One query by hash. */
  function Poll(env: Env, w: World, hash: Tx): (World, Option<TxResult>) {
    var t := env.weather(w.clock);
    var l := Advance(w.ledger, t.deliveries);
    (w.(ledger := l, clock := w.clock + 1), if t.transport then Lookup(l.included, hash) else None)
  }

  /** The ledger `l` after `k` calls, the first of them call number `t`. */
  function LedgerAfter(env: Env, l: Ledger, t: nat, k: nat): Ledger {
    if k == 0 then l else Advance(LedgerAfter(env, l, t, k - 1), env.weather(t + k - 1).deliveries)
  }

  /** What poll number `k` finds, when the polls for `hash` begin with call number `t` on ledger `l`. */
  function AnswerAt(env: Env, l: Ledger, t: nat, hash: Tx, k: nat): Option<TxResult> {
    if env.weather(t + k).transport then Lookup(LedgerAfter(env, l, t, k + 1).included, hash) else None
  }

  /** The first answer is that of poll `k`. */
  ghost predicate FirstAnsweredAt(env: Env, l: Ledger, t: nat, hash: Tx, k: nat) {
    AnswerAt(env, l, t, hash, k).Some? && forall j :: 0 <= j < k ==> AnswerAt(env, l, t, hash, j) == None
  }

  /** WaitTx with `n` polls left. */
  function Wait(env: Env, w: World, hash: Tx, n: nat): (World, Outcome<TxResult>)
    decreases n, w.clock
  {
    if n == 0 then (w, Exit)
    else
      var (w', answer) := Poll(env, w, hash);
      match answer
      case None => Wait(env, w', hash, n - 1)
      case Some(r) => if r.code != 0 then (w', Exit) else (w', Ok(r))
  }

  /** The first call can be counted apart. */
  lemma {:induction false} LedgerAfterFirst(env: Env, l: Ledger, t: nat, k: nat)
    ensures LedgerAfter(env, Advance(l, env.weather(t).deliveries), t + 1, k) == LedgerAfter(env, l, t, k + 1)
  {
    if k == 0 {
      assert LedgerAfter(env, l, t, 0) == l;
    } else {
      LedgerAfterFirst(env, l, t, k - 1);
    }
  }

  lemma AnswerAtLater(env: Env, l: Ledger, t: nat, hash: Tx, k: nat)
    ensures AnswerAt(env, Advance(l, env.weather(t).deliveries), t + 1, hash, k) == AnswerAt(env, l, t, hash, k + 1)
  {
    LedgerAfterFirst(env, l, t, k + 1);
  }

  /** The first answered poll decides, one call after its number. */
  lemma {:induction false} WaitFindsFirst(env: Env, w: World, hash: Tx, n: nat, k: nat)
    requires k < n && FirstAnsweredAt(env, w.ledger, w.clock, hash, k)
    ensures var answer := AnswerAt(env, w.ledger, w.clock, hash, k).value;
            Wait(env, w, hash, n) ==
            (w.(ledger := LedgerAfter(env, w.ledger, w.clock, k + 1), clock := w.clock + k + 1),
             if answer.code == 0 then Ok(answer) else Exit)
    decreases n
  {
    var (w1, answer) := Poll(env, w, hash);
    LedgerAfterFirst(env, w.ledger, w.clock, 0);
    assert answer == AnswerAt(env, w.ledger, w.clock, hash, 0);
    if k > 0 {
      LedgerAfterFirst(env, w.ledger, w.clock, k);
      AnswerAtLater(env, w.ledger, w.clock, hash, k - 1);
      forall j | 0 <= j < k - 1 ensures AnswerAt(env, w1.ledger, w1.clock, hash, j) == None {
        AnswerAtLater(env, w.ledger, w.clock, hash, j);
      }
      WaitFindsFirst(env, w1, hash, n - 1, k - 1);
    }
  }

  lemma {:induction false} WaitWithoutAnswer(env: Env, w: World, hash: Tx, n: nat)
    requires forall k: nat :: k < n ==> AnswerAt(env, w.ledger, w.clock, hash, k) == None
    ensures Wait(env, w, hash, n) ==
            (w.(ledger := LedgerAfter(env, w.ledger, w.clock, n), clock := w.clock + n), Exit)
    decreases n
  {
    if n > 0 {
      var (w1, answer) := Poll(env, w, hash);
      LedgerAfterFirst(env, w.ledger, w.clock, 0);
      assert answer == AnswerAt(env, w.ledger, w.clock, hash, 0);
      forall j: nat | j < n - 1 ensures AnswerAt(env, w1.ledger, w1.clock, hash, j) == None {
        AnswerAtLater(env, w.ledger, w.clock, hash, j);
      }
      LedgerAfterFirst(env, w.ledger, w.clock, n - 1);
      WaitWithoutAnswer(env, w1, hash, n - 1);
    }
  }

  /** What a wait of thirty polls must yield, in terms of what they find: if poll k of thirty is the first
      answered, its result when the code is 0 and the end of the process otherwise, after k + 1 calls;
      the end after thirty calls when none is answered. */
  ghost predicate IsThirtyPolls(env: Env, w: World, hash: Tx, w': World, r: Outcome<TxResult>) {
    && (forall k: nat :: k < 30 && FirstAnsweredAt(env, w.ledger, w.clock, hash, k) ==>
          var answer := AnswerAt(env, w.ledger, w.clock, hash, k).value;
          && r == (if answer.code == 0 then Ok(answer) else Exit)
          && w' == w.(ledger := LedgerAfter(env, w.ledger, w.clock, k + 1), clock := w.clock + k + 1))
    && ((forall k: nat :: k < 30 ==> AnswerAt(env, w.ledger, w.clock, hash, k) == None) ==>
          && r == Exit
          && w' == w.(ledger := LedgerAfter(env, w.ledger, w.clock, 30), clock := w.clock + 30))
  }

  lemma WaitAnswers(env: Env, w: World, hash: Tx)
    ensures var (w', r) := Wait(env, w, hash, POLLS); IsThirtyPolls(env, w, hash, w', r)
  {
    var (w', r) := Wait(env, w, hash, POLLS);
    forall k: nat | k < 30 && FirstAnsweredAt(env, w.ledger, w.clock, hash, k)
      ensures var answer := AnswerAt(env, w.ledger, w.clock, hash, k).value;
              && r == (if answer.code == 0 then Ok(answer) else Exit)
              && w' == w.(ledger := LedgerAfter(env, w.ledger, w.clock, k + 1), clock := w.clock + k + 1)
    {
      WaitFindsFirst(env, w, hash, POLLS, k);
    }
    if forall k: nat :: k < 30 ==> AnswerAt(env, w.ledger, w.clock, hash, k) == None {
      WaitWithoutAnswer(env, w, hash, POLLS);
    }
  }

  function Confirm(w: World, tx: Tx, r: TxResult): World {
    w.(confirmed := w.confirmed + [Confirmation(tx, r)])
  }

  /** Sign, broadcast, wait. */
  function Submit(env: Env, w: World, name: string, msg: Msg, override: uint64): (World, Outcome<TxResult>) {
    match Sign(env, w, name, msg, override)
    case SignFailed => (w, Exit)
    case SignPanicked => (w, Exit)
    case Signed(tx) =>
      var w1 := w.(signed := w.signed + [SigningOf(w, tx)]);
      var (w2, sent) := Broadcast(env, w1, tx);
      if !sent then (w2, Exit)
      else
        var (w3, r) := Wait(env, w2, tx, POLLS);
        if r.Ok? then (Confirm(w3, tx, r.value), r) else (w3, Exit)
  }

  function DeployContract(env: Env, w: World, name: string, file: string, override: uint64)
    : (World, Outcome<TxResult>)
  {
    match env.files(w.clock, file)
    case None => (w, Exit)
    case Some(wasm) =>
      if wasm == [] || name !in w.accounts then (w, Exit)
      else Submit(env, w, name, StoreCode(w.accounts[name].address, wasm), override)
  }

  function InstantiateContract(env: Env, w: World, name: string, codeId: uint64, payload: bytes, override: uint64)
    : (World, Outcome<TxResult>)
  {
    if name !in w.accounts then (w, Exit)
    else Submit(env, w, name, Instantiate(w.accounts[name].address, codeId, payload), override)
  }

  function Bump(w: World, name: string): World
    requires name in w.accounts
  {
    SetSequence(w, name, Next(w.accounts[name].sequence))
  }

  function SetSequence(w: World, name: string, s: uint64): World
    requires name in w.accounts
  {
    w.(accounts := w.accounts[name := w.accounts[name].(sequence := s)])
  }

  /** How a synchronisation ends: counter set, an error returned to the caller, or process ended. */
  datatype SyncOutcome = Synced | Returned | Ended

  /** UpdateAccountSequence: adopt the sequence the chain reports. A value that cannot be decoded is
      only logged and returned as an error; every other failure ends the process. */
  function Sync(env: Env, w: World, name: string): (World, SyncOutcome) {
    if name !in w.accounts then (w, Ended)
    else
      var t := env.weather(w.clock);
      var l := Advance(w.ledger, t.deliveries);
      var w' := w.(ledger := l, clock := w.clock + 1);
      if !t.transport || t.code != 0 then (w', Ended)
      else if !t.decodes then (w', Returned)
      else (SetSequence(w', name, Expected(l, w.accounts[name].address)), Synced)
  }

  /** The keyring holds each account's address under the account's own name, so that distinct names
      have distinct addresses; AddAccount keeps this. */
  ghost predicate OwnAddresses(w: World) {
    forall n :: n in w.accounts ==>
      w.accounts[n].address in w.keyring && w.keyring[w.accounts[n].address] == n
  }

  /** Between two calls: nothing in the pool, everything signed is confirmed, and no transaction that
      succeeded could be mistaken for the next one signed at the expected sequence. */
  ghost predicate Settled(w: World) {
    && w.ledger.pool == []
    && |w.signed| == |w.confirmed|
    && Past(w.ledger)
    && OwnAddresses(w)
  }

  /** A signing done right: at the sequence the chain expects, with no other transaction of the
      process in flight. */
  predicate Right(s: Signing) {
    s.tx.sequence == s.expected && s.pool == [] && s.awaiting == 0
  }

  /** Polling follows the fate of a lone transaction that had not succeeded before: success means it
      was executed, and nothing else was. */
  lemma {:induction false} WaitFollowsFate(env: Env, w: World, l: Ledger, tx: Tx, f: Fate, n: nat)
    requires l.pool == [] && w.ledger == After(l, tx, f)
    requires f.Executed? ==> tx.sequence == Expected(l, tx.msg.sender)
    requires forall i :: 0 <= i < |l.included| && l.included[i].tx == tx ==> l.included[i].result.code != 0
    ensures var (w', r) := Wait(env, w, tx, n);
            && w' == w.(ledger := w'.ledger, clock := w'.clock)
            && w'.clock >= w.clock
            && (exists g :: w'.ledger == After(l, tx, g) && (g.Executed? ==> tx.sequence == Expected(l, tx.msg.sender)))
            && (r.Ok? ==> w'.ledger == After(l, tx, Executed(r.value)) && tx.sequence == Expected(l, tx.msg.sender))
    decreases n
  {
    if n == 0 {
      assert w.ledger == After(l, tx, f);
    } else {
      var t := env.weather(w.clock);
      AdvanceLone(l, tx, f, t.deliveries);
      var g := FateAfter(l, tx, f, t.deliveries);
      var (w1, answer) := Poll(env, w, tx);
      assert w1.ledger == After(l, tx, g);
      SuccessMeansExecuted(l, tx, g);
      if answer.None? {
        WaitFollowsFate(env, w1, l, tx, g, n - 1);
      }
    }
  }

  /** A submission whose local sequence is the expected one: the signing is right; if the process
      goes on, exactly this transaction was executed; if it ends, at most this one was. */
  lemma SubmitRight(env: Env, w: World, name: string, msg: Msg, override: uint64)
    requires Settled(w)
    requires name in w.accounts && msg.sender == w.accounts[name].address
    requires w.accounts[name].sequence == Expected(w.ledger, msg.sender)
    requires Expected(w.ledger, msg.sender) + 1 < TWO_64
    ensures var (w', r) := Submit(env, w, name, msg, override);
            && w'.accounts == w.accounts && w'.keyring == w.keyring
            && (w'.signed == w.signed ==> r.Exit? && w' == w)
            && (w'.signed != w.signed ==>
                  && |w'.signed| == |w.signed| + 1 && w'.signed[..|w.signed|] == w.signed
                  && var s := w'.signed[|w.signed|];
                  && Right(s) && s.tx.msg == msg && s.tx.sequence == w.accounts[name].sequence
                  && exists f :: w'.ledger == After(w.ledger, s.tx, f))
            && (r.Ok? ==>
                  && Settled(w')
                  && w'.signed != w.signed
                  && var tx := w'.signed[|w.signed|].tx;
                  && w'.confirmed == w.confirmed + [Confirmation(tx, r.value)]
                  && w'.ledger == After(w.ledger, tx, Executed(r.value)))
  {
    match Sign(env, w, name, msg, override)
    case SignFailed =>
    case SignPanicked =>
    case Signed(tx) =>
      var s := SigningOf(w, tx);
      var w1 := w.(signed := w.signed + [s]);
      assert w1.signed[..|w.signed|] == w.signed && w1.signed[|w.signed|] == s;
      IdlePoolStaysIdle(w.ledger, env.weather(w.clock).deliveries);
      var (w2, sent) := Broadcast(env, w1, tx);
      assert [] + [tx] == [tx];
      assert w2.ledger == After(w.ledger, tx, Waiting) || w2.ledger == After(w.ledger, tx, Dropped);
      if sent {
        WaitFollowsFate(env, w2, w.ledger, tx, Waiting, POLLS);
        var (w3, r) := Wait(env, w2, tx, POLLS);
        if r.Ok? {
          ExecutedStaysPast(w.ledger, tx, r.value);
        }
      }
  }

  lemma ExecutedStaysPast(l: Ledger, tx: Tx, r: TxResult)
    requires Past(l) && tx.sequence == Expected(l, tx.msg.sender) && tx.sequence + 1 < TWO_64
    ensures Past(After(l, tx, Executed(r)))
    ensures NoneAhead(l) ==> NoneAhead(After(l, tx, Executed(r)))
  {
    var l' := After(l, tx, Executed(r));
    assert forall i :: 0 <= i < |l.included| ==> l'.included[i] == l.included[i];
  }

  /** What every submission keeps, whatever the sequences: it signs at most once, touches no
      counter, and confirms its transaction exactly when the process goes on. */
  lemma SubmitShape(env: Env, w: World, name: string, msg: Msg, override: uint64)
    ensures var (w', r) := Submit(env, w, name, msg, override);
            && w'.accounts == w.accounts && w'.keyring == w.keyring
            && (w'.signed == w.signed || exists tx ::
                  && w'.signed == w.signed + [SigningOf(w, tx)] && tx.msg == msg
                  && (name in w.accounts ==> tx.sequence == w.accounts[name].sequence))
            && (r.Exit? ==> w'.confirmed == w.confirmed)
            && (r.Ok? ==> && |w'.signed| == |w.signed| + 1
                          && w'.confirmed == w.confirmed + [Confirmation(w'.signed[|w.signed|].tx, r.value)]
                          && r.value.code == 0)
  {
    match Sign(env, w, name, msg, override)
    case SignFailed =>
    case SignPanicked =>
    case Signed(tx) =>
      var w1 := w.(signed := w.signed + [SigningOf(w, tx)]);
      var (w2, sent) := Broadcast(env, w1, tx);
      WaitShape(env, w2, tx, POLLS);
  }

  lemma {:induction false} WaitShape(env: Env, w: World, hash: Tx, n: nat)
    ensures var (w', r) := Wait(env, w, hash, n);
            && w' == w.(ledger := w'.ledger, clock := w'.clock)
            && w.clock <= w'.clock <= w.clock + n
            && (r.Ok? ==> r.value.code == 0)
    decreases n
  {
    if n != 0 {
      var (w1, answer) := Poll(env, w, hash);
      if answer.None? {
        WaitShape(env, w1, hash, n - 1);
      }
    }
  }
}
