/** The offline payload generator bumps the counter after each payload; the deployers bump before
    each transaction but the first. */
module PayloadGen {
  import opened GoWords
  import opened ChainModel
  import opened Submission
  import opened ChainClients
  import opened DeployCalls
  import opened SequenceDiscipline
  import opened SequenceTheorems
  import opened SequenceExactness

  /** One slot of a generator run: a message to sign, or None where a payload was made earlier and
      only its sequence number is passed over. */
  datatype Slot = Slot(msg: Option<Msg>, gasPrice: uint64)

  function Plus(x: uint64, k: nat): uint64 {
    (x + k) % TWO_64
  }

  lemma NextIsSuccessor(x: uint64)
    requires x + 1 < TWO_64
    ensures Next(x) == x + 1
  {
  }

  lemma NextPlus(x: uint64, k: nat)
    ensures Next(Plus(x, k)) == Plus(x, k + 1) && Plus(Next(x), k) == Plus(x, k + 1)
  {
    assert (x + k + 1) % TWO_64 == ((x + k) % TWO_64 + 1) % TWO_64;
    if x + 1 == TWO_64 {
      assert (x + k + 1) % TWO_64 == (k + TWO_64) % TWO_64 == k % TWO_64;
    }
  }

  /** The positions of the slots that are signed. */
  function Positions(slots: seq<Slot>): seq<nat> {
    if slots == [] then []
    else
      var front := Positions(slots[..|slots| - 1]);
      if slots[|slots| - 1].msg.Some? then front + [|slots| - 1] else front
  }

  function Bumped(accounts: map<string, AccountInfo>, name: string): map<string, AccountInfo>
    requires name in accounts
  {
    accounts[name := accounts[name].(sequence := Next(accounts[name].sequence))]
  }

  /** What a generator run yields: whether it reached the end, the payloads, and the accounts. */
  datatype Generated = Generated(done: bool, txs: seq<Tx>, accounts: map<string, AccountInfo>)

  /** The generator's run as a function: sign the slot's message, if it has one, then bump. */
  function Generate(accepts: (nat, Tx) -> bool, t: nat, keys: set<string>, accounts: map<string, AccountInfo>,
                    name: string, slots: seq<Slot>): Generated
    requires name in accounts
    decreases |slots|
  {
    if slots == [] then Generated(true, [], accounts)
    else
      var bumped := Bumped(accounts, name);
      match slots[0].msg
      case None => Generate(accepts, t + 1, keys, bumped, name, slots[1..])
      case Some(msg) =>
        var signed := SignTx(accepts, t, accounts, keys, name, msg, slots[0].gasPrice);
        if !signed.Signed? then Generated(false, [], accounts)
        else
          var rest := Generate(accepts, t + 1, keys, bumped, name, slots[1..]);
          rest.(txs := [signed.tx] + rest.txs)
  }

  /** The run from slot `i` on, one slot further. */
  lemma GenerateFrom(accepts: (nat, Tx) -> bool, keys: set<string>, accounts: map<string, AccountInfo>,
                     name: string, slots: seq<Slot>, i: nat)
    requires name in accounts && i < |slots|
    ensures var rest := Generate(accepts, i + 1, keys, Bumped(accounts, name), name, slots[i + 1..]);
            Generate(accepts, i, keys, accounts, name, slots[i..]) ==
            match slots[i].msg
            case None => rest
            case Some(msg) =>
              var signed := SignTx(accepts, i, accounts, keys, name, msg, slots[i].gasPrice);
              if signed.Signed? then rest.(txs := [signed.tx] + rest.txs) else Generated(false, [], accounts)
  {
    assert slots[i..][0] == slots[i] && slots[i..][1..] == slots[i + 1..];
  }

  lemma GenerateNothing(accepts: (nat, Tx) -> bool, t: nat, keys: set<string>, accounts: map<string, AccountInfo>,
                        name: string)
    requires name in accounts
    ensures Generate(accepts, t, keys, accounts, name, []) == Generated(true, [], accounts)
  {
  }

  /** The generator's run on the client itself. `done` is false when a signing failed and ended the
      process. */
  method GeneratePayloads(client: ChainClient, name: string, slots: seq<Slot>) returns (done: bool, txs: seq<Tx>)
    requires client.Valid() && name in client.signerAccounts
    modifies client`signerAccounts
    ensures client.Valid()
    ensures Generated(done, txs, client.signerAccounts) ==
            Generate(client.accepts, 0, client.keyring.Values, old(client.signerAccounts), name, slots)
  {
    hide Generate;
    ghost var accounts := client.signerAccounts;
    ghost var keys := client.keyring.Values;
    txs := [];
    var i := 0;
    assert slots[0..] == slots;
    while i < |slots|
      invariant 0 <= i <= |slots|
      invariant client.Valid() && name in client.signerAccounts && client.keyring == old(client.keyring)
      invariant var rest := Generate(client.accepts, i, keys, client.signerAccounts, name, slots[i..]);
                Generate(client.accepts, 0, keys, accounts, name, slots) == rest.(txs := txs + rest.txs)
    {
      GenerateFrom(client.accepts, keys, client.signerAccounts, name, slots, i);
      if slots[i].msg.Some? {
        var signed := client.GetSignedTxBytes(i, name, slots[i].msg.value, slots[i].gasPrice);
        if !signed.Signed? {
          return false, txs;
        }
        ghost var bumped := Bumped(client.signerAccounts, name);
        ghost var rest := Generate(client.accepts, i + 1, keys, bumped, name, slots[i + 1..]);
        assert txs + ([signed.tx] + rest.txs) == (txs + [signed.tx]) + rest.txs;
        txs := txs + [signed.tx];
      }
      var _ := client.IncreaseSequence(name);
      i := i + 1;
    }
    assert slots[i..] == [];
    GenerateNothing(client.accepts, i, keys, client.signerAccounts, name);
    return true, txs;
  }

  /** A completed run leaves the counter one past the last slot; no run changes another account, or
      another field of this one. */
  lemma {:induction false} GeneratedCounter(accepts: (nat, Tx) -> bool, t: nat, keys: set<string>,
                                            accounts: map<string, AccountInfo>, name: string, slots: seq<Slot>)
    requires name in accounts
    ensures var g := Generate(accepts, t, keys, accounts, name, slots);
            && name in g.accounts
            && g.accounts == accounts[name := accounts[name].(sequence := g.accounts[name].sequence)]
            && (g.done ==> g.accounts[name].sequence == Plus(accounts[name].sequence, |slots|))
            && |g.txs| <= |Positions(slots)|
            && (g.done ==> |g.txs| == |Positions(slots)|)
    decreases |slots|
  {
    if slots != [] {
      GeneratedCounter(accepts, t + 1, keys, Bumped(accounts, name), name, slots[1..]);
      NextPlus(accounts[name].sequence, |slots| - 1);
      PositionsFromFirst(slots);
    }
  }

  /** Every payload carries the sequence of its slot: start plus the slot's position, whether or not
      earlier slots were skipped. */
  lemma {:induction false} GeneratedSequence(accepts: (nat, Tx) -> bool, t: nat, keys: set<string>,
                                             accounts: map<string, AccountInfo>, name: string, slots: seq<Slot>, i: nat)
    requires name in accounts && i < |Generate(accepts, t, keys, accounts, name, slots).txs|
    ensures i < |Positions(slots)|
    ensures Generate(accepts, t, keys, accounts, name, slots).txs[i].sequence ==
            Plus(accounts[name].sequence, Positions(slots)[i])
    decreases |slots|
  {
    var start := accounts[name].sequence;
    PositionsFromFirst(slots);
    if slots[0].msg.Some? && i == 0 {
      assert Plus(start, 0) == start;
    } else {
      var j := if slots[0].msg.Some? then i - 1 else i;
      GeneratedSequence(accepts, t + 1, keys, Bumped(accounts, name), name, slots[1..], j);
      NextPlus(start, Positions(slots[1..])[j]);
    }
  }

  /** And the slot's message and fee. */
  lemma {:induction false} GeneratedContent(accepts: (nat, Tx) -> bool, t: nat, keys: set<string>,
                                            accounts: map<string, AccountInfo>, name: string, slots: seq<Slot>, i: nat)
    requires name in accounts && i < |Generate(accepts, t, keys, accounts, name, slots).txs|
    ensures i < |Positions(slots)| && Positions(slots)[i] < |slots|
    ensures var tx := Generate(accepts, t, keys, accounts, name, slots).txs[i];
            var slot := slots[Positions(slots)[i]];
            && slot.msg == Some(tx.msg) && tx.number == accounts[name].number
            && tx.fee == (if slot.gasPrice == 0 then 100000 else slot.gasPrice) && tx.gas == 2 * tx.fee
    decreases |slots|
  {
    PositionsFromFirst(slots);
    if slots[0].msg.None? || i > 0 {
      var j := if slots[0].msg.Some? then i - 1 else i;
      GeneratedContent(accepts, t + 1, keys, Bumped(accounts, name), name, slots[1..], j);
      assert slots[Positions(slots)[i]] == slots[1..][Positions(slots[1..])[j]];
    }
  }

  /** Positions shift by one behind a first slot. */
  lemma {:induction false} PositionsFromFirst(slots: seq<Slot>)
    requires slots != []
    ensures var p := Positions(slots[1..]);
            var head := if slots[0].msg.Some? then [0] else [];
            && |Positions(slots)| == |head| + |p|
            && (head != [] ==> Positions(slots)[0] == 0)
            && forall i :: 0 <= i < |p| ==> Positions(slots)[|head| + i] == p[i] + 1
    decreases |slots|
  {
    if |slots| == 1 {
      assert slots[1..] == [] && slots[..0] == [];
    } else {
      var front := slots[..|slots| - 1];
      PositionsFromFirst(front);
      assert front[1..] == slots[1..][..|slots[1..]| - 1];
      assert slots[1..][|slots[1..]| - 1] == slots[|slots| - 1];
    }
  }

  predicate AllSigned(slots: seq<Slot>) {
    forall i :: 0 <= i < |slots| ==> slots[i].msg.Some?
  }

  lemma {:induction false} PositionsOfAll(slots: seq<Slot>)
    requires AllSigned(slots)
    ensures |Positions(slots)| == |slots|
    ensures forall i :: 0 <= i < |slots| ==> Positions(slots)[i] == i
  {
    if slots != [] {
      PositionsOfAll(slots[..|slots| - 1]);
    }
  }

  function Sequences(txs: seq<Tx>): seq<int> {
    seq(|txs|, i requires 0 <= i < |txs| => txs[i].sequence)
  }

  // ----- the two disciplines -----

  /** Sign, then bump: the sequences signed by `n` payloads, and the counter afterwards. */
  function BumpAfter(counter: uint64, n: nat): (seq<int>, uint64)
    decreases n
  {
    if n == 0 then ([], counter)
    else
      var (rest, end) := BumpAfter(Next(counter), n - 1);
      ([counter] + rest, end)
  }

  /** Bump, then sign, with the bump left out while the flag is set. */
  function BumpBefore(counter: uint64, first: bool, n: nat): (seq<int>, uint64)
    decreases n
  {
    if n == 0 then ([], counter)
    else
      var c := if first then counter else Next(counter);
      var (rest, end) := BumpBefore(c, false, n - 1);
      ([c] + rest, end)
  }

  /** From equal counters both disciplines sign the same sequences, wrap-around included, and the
      generator's final counter is the successor of the deployer's unless nothing was signed. */
  lemma {:induction false} SameSequences(counter: uint64, n: nat)
    ensures BumpBefore(counter, true, n).0 == BumpAfter(counter, n).0
    ensures if n == 0 then BumpAfter(counter, n).1 == BumpBefore(counter, true, n).1
            else BumpAfter(counter, n).1 == Next(BumpBefore(counter, true, n).1)
  {
    if n > 0 {
      BumpBeforeIsShifted(counter, n - 1);
    }
  }

  lemma {:induction false} BumpBeforeIsShifted(counter: uint64, n: nat)
    ensures BumpBefore(counter, false, n).0 == BumpAfter(Next(counter), n).0
    ensures BumpAfter(Next(counter), n).1 == Next(BumpBefore(counter, false, n).1)
    decreases n
  {
    if n > 0 {
      BumpBeforeIsShifted(Next(counter), n - 1);
    }
  }

  /** The bump-after discipline in closed form. */
  lemma {:induction false} BumpAfterIsPlus(counter: uint64, n: nat)
    ensures |BumpAfter(counter, n).0| == n
    ensures forall i :: 0 <= i < n ==> BumpAfter(counter, n).0[i] == Plus(counter, i)
    ensures BumpAfter(counter, n).1 == Plus(counter, n)
    decreases n
  {
    if n > 0 {
      BumpAfterIsPlus(Next(counter), n - 1);
      NextPlus(counter, n - 1);
      forall i | 0 <= i < n ensures BumpAfter(counter, n).0[i] == Plus(counter, i) {
        if i > 0 {
          NextPlus(counter, i - 1);
        }
      }
    }
  }

  /** Below 2^64 the generator signs consecutive numbers. */
  lemma {:induction false} BumpAfterIsRange(counter: uint64, n: nat)
    requires counter + n < TWO_64
    ensures BumpAfter(counter, n) == (Range(counter, counter + n), counter + n)
    decreases n
  {
    if n > 0 {
      BumpAfterIsRange(counter + 1, n - 1);
      RangeCons(counter, counter + n);
    }
  }

  lemma {:induction false} RangeCons(lo: int, hi: int)
    requires lo < hi
    ensures Range(lo, hi) == [lo] + Range(lo + 1, hi)
    decreases hi - lo
  {
    if lo + 1 < hi {
      RangeCons(lo, hi - 1);
    }
  }

  /** A completed generator run that skips no slot follows the bump-after discipline. */
  lemma GeneratorBumpsAfter(accepts: (nat, Tx) -> bool, t: nat, keys: set<string>, accounts: map<string, AccountInfo>,
                            name: string, slots: seq<Slot>)
    requires name in accounts && AllSigned(slots)
    ensures var g := Generate(accepts, t, keys, accounts, name, slots);
            g.done ==>
              && Sequences(g.txs) == BumpAfter(accounts[name].sequence, |slots|).0
              && name in g.accounts && g.accounts[name].sequence == BumpAfter(accounts[name].sequence, |slots|).1
  {
    GeneratedCounter(accepts, t, keys, accounts, name, slots);
    var g := Generate(accepts, t, keys, accounts, name, slots);
    forall i | 0 <= i < |g.txs| ensures g.txs[i].sequence == Plus(accounts[name].sequence, Positions(slots)[i]) {
      GeneratedSequence(accepts, t, keys, accounts, name, slots, i);
    }
    PositionsOfAll(slots);
    BumpAfterIsPlus(accounts[name].sequence, |slots|);
  }

  /** MAIN THEOREM. Let a deployer program of u uploads and p pairs, and a generator run over u + 2p
      slots that all have a message, both complete from the same start. Then the signer's sequences are
      those of the generated payloads, and the deployer's counter ends one behind the generator's. */
  lemma DeployersSignAsGenerator(env: Env, w: World, d: Deployer, calls: seq<Call>, w': World, d': Deployer, done: bool,
                                 accepts: (nat, Tx) -> bool, t: nat, keys: set<string>,
                                 accounts: map<string, AccountInfo>, name: string, slots: seq<Slot>, g: Generated)
    requires Settled(w) && d.isFirstDeploy && d.signer.name in w.accounts
    requires Room(w, d.signer.name, Uploads(calls) + 2 * Pairs(calls))
    requires DeploysOnly(calls) && (calls != [] ==> calls[0].UploadAndInstantiate?)
    requires Run(env, w, d, [SyncAccount(d.signer.name)] + calls) == (w', d', done)
    requires name in accounts && accounts[name].sequence == Expected(w.ledger, w.accounts[d.signer.name].address)
    requires AllSigned(slots) && |slots| == Uploads(calls) + 2 * Pairs(calls)
    requires Generate(accepts, t, keys, accounts, name, slots) == g
    ensures done && g.done ==>
              && |w.signed| <= |w'.signed| && NewlySigned(w, w', d.signer.name) == Sequences(g.txs)
              && (calls != [] ==> && d.signer.name in w'.accounts && name in g.accounts
                                  && Next(w'.accounts[d.signer.name].sequence) == g.accounts[name].sequence)
  {
    hide *;
    SyncedDeployProgram(env, w, d, calls, w', d', done);
    GeneratorBumpsAfter(accepts, t, keys, accounts, name, slots);
    if done && g.done {
      BumpAfterIsRange(accounts[name].sequence, |slots|);
      if calls != [] {
        NextIsSuccessor(w'.accounts[d.signer.name].sequence);
      }
    }
  }
}
