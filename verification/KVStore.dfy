/** The key-value application as the test sees it, and the submit-and-drain loop as a function of
    the answers it receives. */
module KVStore {
  import opened GoWords
  import opened GoSlices

  datatype KV = KV(k: bytes, v: bytes)

  /** What the node answers a query for a key: nothing usable, or a code, a key and a value. */
  datatype Reply = Unreachable | Answer(code: nat, key: bytes, value: bytes)

  /** The answer to each query, by its number and key. Any behaviour of the node is one of these. */
  type Answers = (nat, bytes) -> Reply

  /** ABCIQuery returns no error: the node answered with code 0, this key and this value. */
  predicate Hit(o: Answers, t: nat, e: KV) {
    o(t, e.k) == Answer(0, e.k, e.v)
  }

  /** One attempt on the queue `q` of which the first `d` entries are gone, starting with query number
      `t`: drop heads while they are found. Yields the new `d` and the next query number. */
  function Attempt(o: Answers, q: seq<KV>, d: nat, t: nat): (nat, nat)
    requires d <= |q|
    ensures d <= Attempt(o, q, d, t).0 <= |q|
    decreases |q| - d
  {
    if d == |q| then (d, t)
    else if Hit(o, t, q[d]) then Attempt(o, q, d + 1, t + 1)
    else (d, t + 1)
  }

  lemma AttemptStep(o: Answers, q: seq<KV>, d: nat, t: nat)
    requires d < |q|
    ensures Attempt(o, q, d, t) == if Hit(o, t, q[d]) then Attempt(o, q, d + 1, t + 1) else (d, t + 1)
  {
  }

  /** How many entries are gone, the number of the next query, how many attempts met a miss, and
      whether success was announced. */
  datatype Report = Report(removed: nat, next: nat, misses: nat, announced: bool)

  /** The attempts that remain: success is announced only when an attempt begins with nothing left. */
  function Drain(o: Answers, q: seq<KV>, d: nat, t: nat, left: nat): Report
    requires d <= |q|
    decreases left, |q|
  {
    if left == 0 then Report(d, t, 0, false)
    else if d == |q| then Report(d, t, 0, true)
    else
      var (d1, t1) := Attempt(o, q, d, t);
      var r := Drain(o, q, d1, t1, left - 1);
      r.(misses := r.misses + if d1 == |q| then 0 else 1)
  }

  /** How many entries are gone, and the next query number, when attempt `i` of the whole drain begins. */
  function Start(o: Answers, q: seq<KV>, i: nat): (nat, nat)
    ensures Start(o, q, i).0 <= |q|
    decreases i, |q|
  {
    if i == 0 then (0, 0)
    else
      var (d, t) := Start(o, q, i - 1);
      Attempt(o, q, d, t)
  }

  /** Some query in [t, t') found the entry, with its exact key and value. */
  ghost predicate Found(o: Answers, e: KV, t: nat, t': nat) {
    exists s :: t <= s < t' && Hit(o, s, e) && o(s, e.k) == Answer(0, e.k, e.v)
  }

  lemma {:induction false} AttemptShape(o: Answers, q: seq<KV>, d: nat, t: nat)
    requires d <= |q|
    ensures var (d1, t1) := Attempt(o, q, d, t);
            && t1 == t + (d1 - d) + (if d1 == |q| then 0 else 1)
            && forall i :: d <= i < d1 ==> Found(o, q[i], t, t1)
    decreases |q| - d
  {
    if d < |q| && Hit(o, t, q[d]) {
      AttemptShape(o, q, d + 1, t + 1);
      var (d1, t1) := Attempt(o, q, d, t);
      forall i | d <= i < d1 ensures Found(o, q[i], t, t1) {
        assert i > d ==> Found(o, q[i], t + 1, t1);
      }
    }
  }

  /** Whatever the node answers: each removed entry was found by a query, every query either removes
      an entry or ends its attempt, and at most `left` queries miss. */
  lemma {:induction false} DrainShape(o: Answers, q: seq<KV>, d: nat, t: nat, left: nat)
    requires d <= |q|
    ensures var r := Drain(o, q, d, t, left);
            && d <= r.removed <= |q|
            && r.next == t + (r.removed - d) + r.misses
            && r.misses <= left
            && forall i :: d <= i < r.removed ==> Found(o, q[i], t, r.next)
    decreases left, |q|
  {
    if left > 0 && d < |q| {
      AttemptShape(o, q, d, t);
      var (d1, t1) := Attempt(o, q, d, t);
      DrainShape(o, q, d1, t1, left - 1);
      var r := Drain(o, q, d, t, left);
      forall i | d <= i < r.removed ensures Found(o, q[i], t, r.next) {
        assert if i < d1 then Found(o, q[i], t, t1) else Found(o, q[i], t1, r.next);
      }
    }
  }

  /** Once the queue is empty, further attempts change nothing. */
  lemma {:induction false} StartStaysEmpty(o: Answers, q: seq<KV>, i: nat, j: nat)
    requires i <= j && Start(o, q, i).0 == |q|
    ensures Start(o, q, j) == Start(o, q, i)
    decreases j - i
  {
    if i < j {
      StartStaysEmpty(o, q, i + 1, j);
    }
  }

  /** Success is announced exactly when the last attempt would begin with nothing left: a drain that
      finishes during the last attempt is not reported. */
  lemma AnnouncedIff(o: Answers, q: seq<KV>, attempts: nat)
    ensures var r := Drain(o, q, 0, 0, attempts);
            && (r.removed, r.next) == Start(o, q, attempts)
            && (r.announced <==> attempts > 0 && Start(o, q, attempts - 1).0 == |q|)
  {
    DrainFromStart(o, q, 0, attempts);
  }

  /** In the source's words: the message appears if and only if some attempt begins with an empty list. */
  lemma AnnouncedIffSomeAttemptBeginsEmpty(o: Answers, q: seq<KV>, attempts: nat)
    ensures Drain(o, q, 0, 0, attempts).announced <==> exists i: nat :: i < attempts && Start(o, q, i).0 == |q|
  {
    AnnouncedIff(o, q, attempts);
    if i: nat :| i < attempts && Start(o, q, i).0 == |q| {
      StartStaysEmpty(o, q, i, attempts - 1);
    }
  }

  /** A node that is down for the first `down` queries and then has the one entry. */
  function LateBy(e: KV, down: nat): Answers {
    (t: nat, k: bytes) => if t < down then Unreachable else Answer(0, e.k, e.v)
  }

  lemma {:induction false} StartWhileDown(e: KV, down: nat, i: nat)
    requires i <= down
    ensures Start(LateBy(e, down), [e], i) == (0, i)
    decreases i
  {
    if i > 0 {
      StartWhileDown(e, down, i - 1);
    }
  }

  /** It happens: a list of one entry, emptied by the last attempt, without a message. */
  lemma EmptiedUnannounced(e: KV)
    ensures var r := Drain(LateBy(e, 29), [e], 0, 0, 30);
            r.removed == 1 && !r.announced
  {
    var o := LateBy(e, 29);
    StartWhileDown(e, 29, 29);
    AnnouncedIff(o, [e], 30);
    assert Hit(o, 29, [e][0]);
    assert Attempt(o, [e], 0, 29) == (1, 30);
    assert Start(o, [e], 30) == Attempt(o, [e], 0, 29);
  }

  lemma {:induction false} DrainFromStart(o: Answers, q: seq<KV>, i: nat, left: nat)
    ensures var (d, t) := Start(o, q, i);
            var r := Drain(o, q, d, t, left);
            && (r.removed, r.next) == Start(o, q, i + left)
            && (r.announced <==> left > 0 && Start(o, q, i + left - 1).0 == |q|)
    decreases left
  {
    if left > 0 {
      if Start(o, q, i).0 == |q| {
        StartStaysEmpty(o, q, i, i + left);
        StartStaysEmpty(o, q, i, i + left - 1);
      } else {
        DrainFromStart(o, q, i + 1, left - 1);
      }
    }
  }

  // ----- the store -----

  type Store = map<bytes, bytes>

  /** The application splits a transaction at '=' and overwrites the key. */
  function ApplyTx(s: Store, tx: bytes): Store {
    match Split(tx)
    case None => s
    case Some((k, v)) => s[k := v]
  }

  function ApplyAll(s: Store, es: seq<KV>): Store {
    if es == [] then s
    else ApplyTx(ApplyAll(s, es[..|es| - 1]), Encode(es[|es| - 1].k, es[|es| - 1].v))
  }

  /** An absent key is answered with an empty value. */
  function Value(s: Store, k: bytes): bytes {
    if k in s then s[k] else []
  }

  ghost predicate PlainKeys(es: seq<KV>) {
    forall i :: 0 <= i < |es| ==> EQUALS !in es[i].k
  }

  /** `i` is the position of the last entry of `es` with key `k`. */
  ghost predicate LastWith(es: seq<KV>, k: bytes, i: int) {
    0 <= i < |es| && es[i].k == k && forall j :: i < j < |es| ==> es[j].k != k
  }

  lemma ApplyLast(s: Store, es: seq<KV>)
    requires PlainKeys(es) && es != []
    ensures var n := |es| - 1;
            ApplyAll(s, es) == ApplyAll(s, es[..n])[es[n].k := es[n].v]
  {
    var n := |es| - 1;
    SplitRecoversIff(es[n].k, es[n].v);
  }

  lemma {:induction false} UnwrittenKeyKeepsValue(s: Store, es: seq<KV>, k: bytes)
    requires PlainKeys(es) && forall i :: 0 <= i < |es| ==> es[i].k != k
    ensures Value(ApplyAll(s, es), k) == Value(s, k)
  {
    if es != [] {
      ApplyLast(s, es);
      UnwrittenKeyKeepsValue(s, es[..|es| - 1], k);
    }
  }

  /** The last writer of a key wins. */
  lemma {:induction false} LastWriterWins(s: Store, es: seq<KV>, k: bytes, i: int)
    requires PlainKeys(es) && LastWith(es, k, i)
    ensures Value(ApplyAll(s, es), k) == es[i].v
  {
    var n := |es| - 1;
    ApplyLast(s, es);
    if i < n {
      assert LastWith(es[..n], k, i);
      LastWriterWins(s, es[..n], k, i);
    }
  }

  lemma {:induction false} LastExists(es: seq<KV>, i: nat) returns (l: nat)
    requires i < |es|
    ensures i <= l && LastWith(es, es[i].k, l)
    decreases |es| - i
  {
    if j :| i < j < |es| && es[j].k == es[i].k {
      l := LastExists(es, j);
    } else {
      l := i;
    }
  }
}
