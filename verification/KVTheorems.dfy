/** The drain against an honest key-value node: one that commits only what was submitted, in any
    order and at any time, and answers from the store that results. */
module KVTheorems {
  import opened GoWords
  import opened KVStore

  /** The submitted entries, the store before them, and at each query number the positions committed
      so far in commit order and whether that query fails. */
  datatype History = History(sent: seq<KV>, base: Store, commits: nat -> seq<nat>, faulty: nat -> bool)

  predicate Distinct(c: seq<nat>) {
    forall i, j :: 0 <= i < j < |c| ==> c[i] != c[j]
  }

  ghost predicate Growing(h: History) {
    && (forall t: nat, t': nat :: t <= t' ==> h.commits(t) <= h.commits(t'))
    && (forall t: nat :: Distinct(h.commits(t)))
    && (forall t: nat, i :: 0 <= i < |h.commits(t)| ==> h.commits(t)[i] < |h.sent|)
  }

  ghost function Committed(h: History, t: nat): seq<KV>
    requires Growing(h)
  {
    seq(|h.commits(t)|, i requires 0 <= i < |h.commits(t)| => h.sent[h.commits(t)[i]])
  }

  /** A query that does not fail is answered from the store of everything committed by then. */
  ghost predicate Honest(h: History, o: Answers)
    requires Growing(h)
  {
    forall t: nat, k: bytes ::
      if h.faulty(t) then o(t, k).Unreachable? || o(t, k).code != 0
      else o(t, k) == Answer(0, k, Value(ApplyAll(h.base, Committed(h, t)), k))
  }

  /** Distinct keys, new to the store, free of '=', with non-empty values. */
  ghost predicate FreshKeys(h: History) {
    && PlainKeys(h.sent)
    && (forall i, j :: 0 <= i < j < |h.sent| ==> h.sent[i].k != h.sent[j].k)
    && (forall i :: 0 <= i < |h.sent| ==> h.sent[i].k !in h.base && h.sent[i].v != [])
  }

  /** The first `d` submitted positions are all among the committed ones `c`. */
  ghost predicate Covers(c: seq<nat>, d: nat) {
    forall i: nat :: i < d ==> i in c
  }

  /** The length of the longest prefix of the first `n` positions that has been committed. */
  function PrefixLength(c: seq<nat>, n: nat): nat {
    if n == 0 then 0
    else
      var p := PrefixLength(c, n - 1);
      if p == n - 1 && n - 1 in c then n else p
  }

  lemma {:induction false} PrefixLengthIsLongest(c: seq<nat>, n: nat)
    ensures PrefixLength(c, n) <= n
    ensures Covers(c, PrefixLength(c, n))
    ensures PrefixLength(c, n) < n ==> PrefixLength(c, n) !in c
  {
    if n > 0 {
      PrefixLengthIsLongest(c, n - 1);
    }
  }

  lemma CoveredIsInPrefix(c: seq<nat>, n: nat, d: nat)
    requires d <= n && Covers(c, d)
    ensures d <= PrefixLength(c, n)
    ensures d == n || d !in c ==> d == PrefixLength(c, n)
  {
    PrefixLengthIsLongest(c, n);
  }

  /** What has been committed stays committed. */
  ghost predicate Persistent(h: History) {
    forall t: nat, t': nat, i: nat :: t <= t' && i in h.commits(t) ==> i in h.commits(t')
  }

  lemma CommitsPersist(h: History)
    requires Growing(h)
    ensures Persistent(h)
  {
    forall t: nat, t': nat, i: nat | t <= t' && i in h.commits(t) ensures i in h.commits(t') {
      var c, c' := h.commits(t), h.commits(t');
      var j :| 0 <= j < |c| && c[j] == i;
      assert c'[j] == i;
    }
  }

  /** No query in [t, t') fails. */
  ghost predicate Faultless(h: History, t: nat, t': nat) {
    forall s: nat :: t <= s < t' ==> !h.faulty(s)
  }

  /** A query finds an entry exactly when it does not fail and the entry has been committed. */
  lemma HitIffCommitted(h: History, o: Answers, t: nat, d: nat)
    requires Growing(h) && Honest(h, o) && FreshKeys(h) && d < |h.sent|
    ensures Hit(o, t, h.sent[d]) <==> !h.faulty(t) && d in h.commits(t)
  {
    var e := h.sent[d];
    var c := h.commits(t);
    var es := Committed(h, t);
    assert o(t, e.k) == o(t, e.k);
    assert PlainKeys(es);
    if !h.faulty(t) {
      if d in c {
        var i :| 0 <= i < |c| && c[i] == d;
        forall j | i < j < |es| ensures es[j].k != e.k {
          assert c[j] != c[i];
        }
        assert LastWith(es, e.k, i);
        LastWriterWins(h.base, es, e.k, i);
      } else {
        forall j | 0 <= j < |es| ensures es[j].k != e.k {
          assert c[j] != d;
        }
        UnwrittenKeyKeepsValue(h.base, es, e.k);
      }
    }
  }

  // ----- colliding keys -----

  /** Some of the committed positions `c` holds an entry with the very key and value of `e`. */
  ghost predicate Matched(h: History, c: seq<nat>, e: KV) {
    exists j :: 0 <= j < |c| && c[j] < |h.sent| && h.sent[c[j]] == e
  }

  /** For any plain keys, colliding or not: a query finds an entry exactly when it does not fail and
      either the last committed entry with its key has its value, or no committed entry has its key and
      the store had its value from the start. */
  lemma HitIffLastCommitted(h: History, o: Answers, t: nat, e: KV)
    requires Growing(h) && Honest(h, o) && PlainKeys(h.sent)
    ensures Hit(o, t, e) <==>
            && !h.faulty(t)
            && var es := Committed(h, t);
            || (exists l :: 0 <= l < |es| && LastWith(es, e.k, l) && es[l].v == e.v)
            || ((forall j :: 0 <= j < |es| ==> es[j].k != e.k) && Value(h.base, e.k) == e.v)
  {
    var es := Committed(h, t);
    assert o(t, e.k) == o(t, e.k);
    assert PlainKeys(es);
    if i :| 0 <= i < |es| && es[i].k == e.k {
      var l := LastExists(es, i);
      LastWriterWins(h.base, es, e.k, l);
      forall m | 0 <= m < |es| && LastWith(es, e.k, m) ensures m == l {
      }
    } else {
      UnwrittenKeyKeepsValue(h.base, es, e.k);
    }
  }

  /** A match stays a match as more is committed. */
  lemma MatchPersists(h: History, e: KV, t: nat, t': nat)
    requires Growing(h) && t <= t' && Matched(h, h.commits(t), e)
    ensures Matched(h, h.commits(t'), e)
  {
    var c, c' := h.commits(t), h.commits(t');
    var j :| 0 <= j < |c| && c[j] < |h.sent| && h.sent[c[j]] == e;
    assert c <= c' && c'[j] == c[j];
  }

  lemma HitIsMatched(h: History, o: Answers, t: nat, e: KV)
    requires Growing(h) && Honest(h, o) && PlainKeys(h.sent) && Hit(o, t, e)
    ensures Matched(h, h.commits(t), e) || Value(h.base, e.k) == e.v
  {
    HitIffLastCommitted(h, o, t, e);
    var es := Committed(h, t);
    if l :| 0 <= l < |es| && LastWith(es, e.k, l) && es[l].v == e.v {
      assert h.sent[h.commits(t)[l]] == e;
    }
  }

  /** MAIN THEOREM, safety for any plain keys. Every entry the drain removes was either matched, when the
      last query was answered, by a committed entry with the very same key and value, or answered so by
      the store from the start. */
  lemma DrainRemovesOnlyMatched(h: History, o: Answers, attempts: nat, i: nat)
    requires Growing(h) && Honest(h, o) && PlainKeys(h.sent)
    requires i < Drain(o, h.sent, 0, 0, attempts).removed
    ensures var r := Drain(o, h.sent, 0, 0, attempts);
            && i < |h.sent| && r.next > 0
            && (Matched(h, h.commits(r.next - 1), h.sent[i]) || Value(h.base, h.sent[i].k) == h.sent[i].v)
  {
    DrainShape(o, h.sent, 0, 0, attempts);
    var r := Drain(o, h.sent, 0, 0, attempts);
    assert Found(o, h.sent[i], 0, r.next);
    var s: nat :| 0 <= s < r.next && Hit(o, s, h.sent[i]);
    HitIsMatched(h, o, s, h.sent[i]);
    if Matched(h, h.commits(s), h.sent[i]) {
      MatchPersists(h, h.sent[i], s, r.next - 1);
    }
  }

  // ----- distinct new keys -----

  /** The node's answers tell exactly what has been committed. */
  ghost predicate Tells(h: History, o: Answers) {
    forall t: nat, d: nat :: d < |h.sent| ==> (Hit(o, t, h.sent[d]) <==> !h.faulty(t) && d in h.commits(t))
  }

  lemma HonestTells(h: History, o: Answers)
    requires Growing(h) && Honest(h, o) && FreshKeys(h)
    ensures Tells(h, o)
  {
    forall t: nat, d: nat | d < |h.sent| ensures Hit(o, t, h.sent[d]) <==> !h.faulty(t) && d in h.commits(t) {
      HitIffCommitted(h, o, t, d);
    }
  }

  /** What had been committed when the last query before number `t` was answered. */
  function LastSeen(h: History, t: nat): seq<nat> {
    if t == 0 then [] else h.commits(t - 1)
  }

  lemma LastSeenPersists(h: History, d: nat, t: nat, t': nat)
    requires Persistent(h) && t <= t' && Covers(LastSeen(h, t), d)
    ensures Covers(LastSeen(h, t'), d)
    ensures Covers(h.commits(t'), d)
  {
    forall i: nat | i < d ensures i in LastSeen(h, t') && i in h.commits(t') {
      assert i in LastSeen(h, t);
    }
  }

  /** Entries found by queries before `t1` had been committed when the last of these was answered. */
  lemma FoundAreCommitted(h: History, o: Answers, d: nat, d1: nat, t: nat, t1: nat)
    requires Persistent(h) && Tells(h, o) && d <= d1 <= |h.sent| && t <= t1
    requires Covers(LastSeen(h, t), d)
    requires forall i: nat :: d <= i < d1 ==> Found(o, h.sent[i], t, t1)
    ensures Covers(LastSeen(h, t1), d1)
  {
    LastSeenPersists(h, d, t, t1);
    forall i: nat | d <= i < d1 ensures i in LastSeen(h, t1) {
      assert Found(o, h.sent[i], t, t1);
      var s: nat :| t <= s < t1 && Hit(o, s, h.sent[i]);
      assert i in h.commits(s);
    }
  }

  /** An attempt that begins with the first `d` entries removed, all of them committed, removes only
      entries committed by its last answer. */
  lemma AttemptRemovesCommitted(h: History, o: Answers, d: nat, t: nat)
    requires Persistent(h) && Tells(h, o) && d <= |h.sent| && Covers(LastSeen(h, t), d)
    ensures var (d1, t1) := Attempt(o, h.sent, d, t);
            t <= t1 && Covers(LastSeen(h, t1), d1)
  {
    AttemptShape(o, h.sent, d, t);
    var (d1, t1) := Attempt(o, h.sent, d, t);
    FoundAreCommitted(h, o, d, d1, t, t1);
  }

  lemma AttemptAdvances(o: Answers, q: seq<KV>, d: nat, t: nat)
    requires d < |q|
    ensures t < Attempt(o, q, d, t).1
  {
    AttemptShape(o, q, d, t);
  }

  /** A committed entry extends the committed prefix for every later query. */
  lemma CoversOneMore(h: History, d: nat, t: nat, t': nat)
    requires Persistent(h) && t <= t' && Covers(h.commits(t), d) && d in h.commits(t)
    ensures Covers(h.commits(t'), d + 1)
  {
  }

  /** If none of its queries fails, an attempt stops exactly at the end of the prefix committed when
      its last query was answered. */
  lemma {:induction false} FaultlessAttemptStopsAtPrefix(h: History, o: Answers, d: nat, t: nat)
    requires Persistent(h) && Tells(h, o) && d < |h.sent| && Covers(h.commits(t), d)
    requires Faultless(h, t, Attempt(o, h.sent, d, t).1)
    ensures var (d1, t1) := Attempt(o, h.sent, d, t);
            t < t1 && d1 == PrefixLength(h.commits(t1 - 1), |h.sent|)
    decreases |h.sent| - d
  {
    var n := |h.sent|;
    AttemptAdvances(o, h.sent, d, t);
    AttemptStep(o, h.sent, d, t);
    assert !h.faulty(t);
    if d !in h.commits(t) {
      CoveredIsInPrefix(h.commits(t), n, d);
    } else {
      CoversOneMore(h, d, t, t + 1);
      if d + 1 < n {
        FaultlessAttemptStopsAtPrefix(h, o, d + 1, t + 1);
      } else {
        CoversOneMore(h, d, t, t);
        CoveredIsInPrefix(h.commits(t), n, d + 1);
      }
    }
  }

  lemma {:induction false} StartTracksPrefix(h: History, o: Answers, i: nat)
    requires Persistent(h) && Tells(h, o)
    ensures var (d, t) := Start(o, h.sent, i); Covers(LastSeen(h, t), d)
    decreases i
  {
    if i > 0 {
      StartTracksPrefix(h, o, i - 1);
      var (d, t) := Start(o, h.sent, i - 1);
      AttemptRemovesCommitted(h, o, d, t);
    }
  }

  /** MAIN THEOREM, attempt by attempt. An attempt never removes past the prefix committed when its last
      query was answered; and if it meets no fault, then when it ends it has removed at least the prefix
      that was committed when it began. */
  lemma EveryAttemptTracksPrefix(h: History, o: Answers, i: nat)
    requires Growing(h) && Honest(h, o) && FreshKeys(h)
    ensures var (d, t) := Start(o, h.sent, i);
            var (d1, t1) := Start(o, h.sent, i + 1);
            && d <= d1 <= PrefixLength(LastSeen(h, t1), |h.sent|) && t <= t1
            && (Faultless(h, t, t1) ==> PrefixLength(h.commits(t), |h.sent|) <= d1)
  {
    CommitsPersist(h);
    HonestTells(h, o);
    AttemptTracksPrefix(h, o, i);
  }

  lemma AttemptTracksPrefix(h: History, o: Answers, i: nat)
    requires Persistent(h) && Tells(h, o)
    ensures var (d, t) := Start(o, h.sent, i);
            var (d1, t1) := Start(o, h.sent, i + 1);
            && d <= d1 <= PrefixLength(LastSeen(h, t1), |h.sent|) && t <= t1
            && (Faultless(h, t, t1) ==> PrefixLength(h.commits(t), |h.sent|) <= d1)
  {
    var n := |h.sent|;
    StartTracksPrefix(h, o, i);
    var (d, t) := Start(o, h.sent, i);
    AttemptRemovesCommitted(h, o, d, t);
    LastSeenPersists(h, d, t, t);
    var (d1, t1) := Attempt(o, h.sent, d, t);
    CoveredIsInPrefix(LastSeen(h, t1), n, d1);
    PrefixLengthIsLongest(h.commits(t), n);
    if Faultless(h, t, t1) && d < n {
      FaultlessAttemptStopsAtPrefix(h, o, d, t);
      CoveredIsInPrefix(h.commits(t1 - 1), n, PrefixLength(h.commits(t), n));
    }
  }

  /** MAIN THEOREM, safety. Over the whole drain only entries of the prefix that had been committed when
      its last query was answered are ever removed, in whatever order and however late transactions
      commit, and whatever queries fail. */
  lemma DrainRemovesOnlyCommitted(h: History, o: Answers, attempts: nat)
    requires Growing(h) && Honest(h, o) && FreshKeys(h)
    ensures var r := Drain(o, h.sent, 0, 0, attempts);
            r.removed <= PrefixLength(LastSeen(h, r.next), |h.sent|)
  {
    CommitsPersist(h);
    HonestTells(h, o);
    DrainShape(o, h.sent, 0, 0, attempts);
    var r := Drain(o, h.sent, 0, 0, attempts);
    FoundAreCommitted(h, o, 0, r.removed, 0, r.next);
    CoveredIsInPrefix(LastSeen(h, r.next), |h.sent|, r.removed);
  }

  /** MAIN THEOREM, progress. If everything has been committed when some attempt but the last begins
      and that attempt meets no fault, the drain empties the list and announces it. */
  lemma DrainCompletes(h: History, o: Answers, i: nat, attempts: nat)
    requires Growing(h) && Honest(h, o) && FreshKeys(h)
    requires i + 1 < attempts && Covers(h.commits(Start(o, h.sent, i).1), |h.sent|)
    requires Faultless(h, Start(o, h.sent, i).1, Start(o, h.sent, i + 1).1)
    ensures Drain(o, h.sent, 0, 0, attempts).announced
    ensures Drain(o, h.sent, 0, 0, attempts).removed == |h.sent|
  {
    hide *;
    var (d, t) := Start(o, h.sent, i);
    var (d1, t1) := Start(o, h.sent, i + 1);
    EveryAttemptTracksPrefix(h, o, i);
    CoveredIsInPrefix(h.commits(t), |h.sent|, |h.sent|);
    PrefixLengthIsLongest(LastSeen(h, t1), |h.sent|);
    assert d1 == |h.sent|;
    EmptyIsAnnounced(o, h.sent, i + 1, attempts);
  }

  lemma EmptyIsAnnounced(o: Answers, q: seq<KV>, i: nat, attempts: nat)
    requires i < attempts && Start(o, q, i).0 == |q|
    ensures Drain(o, q, 0, 0, attempts).announced
    ensures Drain(o, q, 0, 0, attempts).removed == |q|
  {
    AnnouncedIff(o, q, attempts);
    StartStaysEmpty(o, q, i, attempts - 1);
    StartStaysEmpty(o, q, i, attempts);
  }

  // ----- a store that no longer changes -----

  /** Every query is answered from the one store `s`. */
  ghost predicate Static(o: Answers, s: Store) {
    forall t: nat, k: bytes :: o(t, k) == Answer(0, k, Value(s, k))
  }

  /** The first position from `d` on whose key does not have the entry's value in `s`; the length if
      there is none. */
  function FirstStale(q: seq<KV>, s: Store, d: nat): nat
    requires d <= |q|
    ensures d <= FirstStale(q, s, d) <= |q|
    ensures forall i :: d <= i < FirstStale(q, s, d) ==> Value(s, q[i].k) == q[i].v
    ensures FirstStale(q, s, d) < |q| ==> Value(s, q[FirstStale(q, s, d)].k) != q[FirstStale(q, s, d)].v
    decreases |q| - d
  {
    if d == |q| || Value(s, q[d].k) != q[d].v then d else FirstStale(q, s, d + 1)
  }

  lemma {:induction false} StaticAttempt(o: Answers, s: Store, q: seq<KV>, d: nat, t: nat)
    requires Static(o, s) && d <= |q|
    ensures Attempt(o, q, d, t).0 == FirstStale(q, s, d)
    decreases |q| - d
  {
    if d < |q| {
      assert o(t, q[d].k) == Answer(0, q[d].k, Value(s, q[d].k));
      if Hit(o, t, q[d]) {
        StaticAttempt(o, s, q, d + 1, t + 1);
      }
    }
  }

  /** Every attempt after the first begins at the first stale entry. */
  lemma {:induction false} StaticStart(o: Answers, s: Store, q: seq<KV>, i: nat)
    requires Static(o, s) && i > 0
    ensures Start(o, q, i).0 == FirstStale(q, s, 0)
    decreases i
  {
    var (d, t) := Start(o, q, i - 1);
    StaticAttempt(o, s, q, d, t);
    if i > 1 {
      StaticStart(o, s, q, i - 1);
    }
  }

  /** The entries of `q` in commit order `c`. */
  function InOrder(q: seq<KV>, c: seq<nat>): (es: seq<KV>)
    requires forall i :: 0 <= i < |c| ==> c[i] < |q|
  {
    seq(|c|, i requires 0 <= i < |c| => q[c[i]])
  }

  /** `c` commits every one of `n` submitted transactions. */
  ghost predicate CommitsAll(c: seq<nat>, n: nat) {
    && (forall i :: 0 <= i < |c| ==> c[i] < n)
    && (forall i: nat :: i < n ==> i in c)
  }

  /** In the commit order `es`, the last entry with the key of entry `i` has another value. */
  ghost predicate Overwritten(q: seq<KV>, es: seq<KV>, i: int)
    requires 0 <= i < |q|
  {
    exists l :: 0 <= l < |es| && LastWith(es, q[i].k, l) && es[l].v != q[i].v
  }

  lemma OverwrittenIffStale(base: Store, q: seq<KV>, es: seq<KV>, i: nat, at: nat)
    requires PlainKeys(es) && i < |q| && at < |es| && es[at] == q[i]
    ensures Overwritten(q, es, i) <==> Value(ApplyAll(base, es), q[i].k) != q[i].v
    ensures exists l :: 0 <= l < |es| && LastWith(es, q[i].k, l) && Value(ApplyAll(base, es), q[i].k) == es[l].v
  {
    var l := LastExists(es, at);
    LastWriterWins(base, es, q[i].k, l);
    if Overwritten(q, es, i) {
      var m :| 0 <= m < |es| && LastWith(es, q[i].k, m) && es[m].v != q[i].v;
      assert m == l;
    }
  }

  /** No key was submitted with two different values. */
  ghost predicate OneValueEach(q: seq<KV>) {
    forall i, j :: 0 <= i < |q| && 0 <= j < |q| && q[i].k == q[j].k ==> q[i].v == q[j].v
  }

  /** On the finished store an entry is stale if and only if it was overwritten; and none is if and only
      if no key has two values. */
  lemma StaleOnFinishedStore(base: Store, q: seq<KV>, c: seq<nat>)
    requires PlainKeys(q) && CommitsAll(c, |q|)
    ensures var es := InOrder(q, c);
            var s := ApplyAll(base, es);
            && (forall i :: 0 <= i < |q| ==> (Overwritten(q, es, i) <==> Value(s, q[i].k) != q[i].v))
            && ((forall i :: 0 <= i < |q| ==> Value(s, q[i].k) == q[i].v) <==> OneValueEach(q))
  {
    var es := InOrder(q, c);
    var s := ApplyAll(base, es);
    forall i | 0 <= i < |q|
      ensures Overwritten(q, es, i) <==> Value(s, q[i].k) != q[i].v
      ensures OneValueEach(q) ==> Value(s, q[i].k) == q[i].v
    {
      assert i in c;
      var at :| 0 <= at < |c| && c[at] == i;
      OverwrittenIffStale(base, q, es, i, at);
      var l :| 0 <= l < |es| && LastWith(es, q[i].k, l) && Value(s, q[i].k) == es[l].v;
      assert es[l] == q[c[l]];
    }
    if forall i :: 0 <= i < |q| ==> Value(s, q[i].k) == q[i].v {
      forall i, j | 0 <= i < |q| && 0 <= j < |q| && q[i].k == q[j].k ensures q[i].v == q[j].v {
        assert Value(s, q[i].k) == q[i].v && Value(s, q[j].k) == q[j].v;
      }
    }
  }

  /** With any number of attempts from two on. */
  lemma StopsAtOverwritten(o: Answers, base: Store, q: seq<KV>, c: seq<nat>, attempts: nat)
    requires PlainKeys(q) && CommitsAll(c, |q|) && Static(o, ApplyAll(base, InOrder(q, c))) && attempts >= 2
    ensures var r := Drain(o, q, 0, 0, attempts);
            && r.removed <= |q|
            && (forall i :: 0 <= i < r.removed ==> !Overwritten(q, InOrder(q, c), i))
            && (r.removed < |q| ==> Overwritten(q, InOrder(q, c), r.removed))
            && (r.announced <==> r.removed == |q|)
            && (r.removed == |q| <==> OneValueEach(q))
  {
    var s := ApplyAll(base, InOrder(q, c));
    AnnouncedIff(o, q, attempts);
    StaticStart(o, s, q, attempts);
    StaticStart(o, s, q, attempts - 1);
    StaleOnFinishedStore(base, q, c);
  }

  /** MAIN THEOREM. Against the store in which all submitted transactions were applied, in any commit
      order, the drain stops exactly at the first entry whose key was last committed with another value;
      it empties the list, and announces it, if and only if no key was submitted with two values. */
  lemma DrainStopsAtOverwritten(o: Answers, base: Store, q: seq<KV>, c: seq<nat>)
    requires PlainKeys(q) && CommitsAll(c, |q|) && Static(o, ApplyAll(base, InOrder(q, c)))
    ensures var r := Drain(o, q, 0, 0, 30);
            && r.removed <= |q|
            && (forall i :: 0 <= i < r.removed ==> !Overwritten(q, InOrder(q, c), i))
            && (r.removed < |q| ==> Overwritten(q, InOrder(q, c), r.removed))
            && (r.announced <==> r.removed == |q|)
            && (r.removed == |q| <==> OneValueEach(q))
  {
    hide *;
    StopsAtOverwritten(o, base, q, c, 30);
  }

  /** The commit order that is the submission order. */
  lemma SubmissionOrder(q: seq<KV>) returns (c: seq<nat>)
    ensures CommitsAll(c, |q|) && InOrder(q, c) == q
  {
    c := seq(|q|, i requires 0 <= i < |q| => i);
    forall i: nat | i < |q| ensures i in c {
      assert c[i] == i;
    }
  }

  /** Entry `i` is overwritten by a later one. */
  ghost predicate OverwrittenLater(q: seq<KV>, i: nat)
    requires i < |q|
  {
    exists l :: i < l < |q| && LastWith(q, q[i].k, l) && q[l].v != q[i].v
  }

  lemma OverwrittenMeansLater(q: seq<KV>, i: nat)
    requires i < |q|
    ensures Overwritten(q, q, i) <==> OverwrittenLater(q, i)
  {
  }

  /** In submission order: the drain stops at the first entry whose key a later entry overwrote. */
  lemma DrainStopsAtOverwrittenLater(o: Answers, base: Store, q: seq<KV>)
    requires PlainKeys(q) && Static(o, ApplyAll(base, q))
    ensures var r := Drain(o, q, 0, 0, 30);
            && r.removed <= |q|
            && (forall i :: 0 <= i < r.removed ==> !OverwrittenLater(q, i))
            && (r.removed < |q| ==> OverwrittenLater(q, r.removed))
            && (r.announced <==> r.removed == |q|)
            && (r.removed == |q| <==> OneValueEach(q))
  {
    hide *;
    var c := SubmissionOrder(q);
    DrainStopsAtOverwritten(o, base, q, c);
    forall i | 0 <= i < |q| ensures Overwritten(q, q, i) <==> OverwrittenLater(q, i) {
      OverwrittenMeansLater(q, i);
    }
  }
}
