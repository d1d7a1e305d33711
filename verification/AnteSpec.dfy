/**
 The ante wrapper of app.go as a state machine over two maps, and what every run
 of it keeps. A run is a sequence of transactions with nondecreasing heights. The
 hash stands for the transaction, and encoding it always succeeds. With `discard`,
 the caller throws away the writes of a transaction that the wrapper or the handler
 it delegates to rejects.
 */
module AnteSpec {
  import opened Numerals

  type Uint64 = n: nat | n < 0x1_0000_0000_0000_0000

  const LIMIT: Uint64 := 10
  const RETENTION: Uint64 := 200

  // innerOk: whether the inner ante handler would accept the transaction.
  datatype Tx = Tx(height: Uint64, signer: string, hash: string, simulate: bool, innerOk: bool) {
    // The rate-limit identity: transactions without a resolvable signer share one.
    function Sender(): string {
      if signer == "" then "unknown" else signer
    }
  }

  datatype Outcome = RateLimited | Replayed | Delegated

  datatype Counter = Counter(height: Uint64, count: Uint64)

  datatype Ante = Ante(counters: map<string, Counter>, seen: map<string, Uint64>) {
    function CounterOf(sender: string): Counter {
      if sender in counters then counters[sender] else Counter(0, 0)
    }
  }

  const EMPTY := Ante(map[], map[])

  // ---------- One transaction ----------

  // The counter a submission at height h writes, if it is within the limit.
  function Bump(c: Counter, h: Uint64): Counter {
    if c.height < h then Counter(h, 1) else Counter(c.height, (c.count + 1) % 0x1_0000_0000_0000_0000)
  }

  // A new height starts at one; the count of a height goes up by one, and wraps only at the top.
  lemma {:induction false} BumpExactly(c: Counter, h: Uint64)
    ensures c.height < h ==> Bump(c, h) == Counter(h, 1)
    ensures c.height >= h && c.count < 0xffff_ffff_ffff_ffff ==> Bump(c, h).height == c.height && Bump(c, h).count == c.count + 1
    ensures c.height >= h && c.count == 0xffff_ffff_ffff_ffff ==> Bump(c, h) == Counter(c.height, 0)
  {}

  function PruneBound(h: Uint64): Uint64 {
    if RETENTION < h then h - RETENTION else 0
  }

  function Prune(seen: map<string, Uint64>, bound: Uint64): map<string, Uint64> {
    map x | x in seen && seen[x] >= bound :: seen[x]
  }

  // The wrapper: count, write the counter, check for a replay, prune, mark.
  function Handle(a: Ante, tx: Tx): (Ante, Outcome) {
    if tx.simulate then (a, Delegated)
    else
      var c := Bump(a.CounterOf(tx.Sender()), tx.height);
      if c.count > LIMIT then (a, RateLimited)
      else
        var counted := a.(counters := a.counters[tx.Sender() := c]);
        if tx.hash in a.seen then (counted, Replayed)
        else (counted.(seen := Prune(a.seen, PruneBound(tx.height))[tx.hash := tx.height]), Delegated)
  }

  // ---------- Runs and their history ----------

  function Run(txs: seq<Tx>, discard: bool): Ante {
    if txs == [] then EMPTY
    else
      var (next, outcome) := Handle(Run(txs[..|txs| - 1], discard), txs[|txs| - 1]);
      if discard && !Succeeds(outcome, txs[|txs| - 1]) then Run(txs[..|txs| - 1], discard) else next
  }

  // The whole handler chain succeeds.
  predicate Succeeds(outcome: Outcome, tx: Tx) {
    outcome == Delegated && tx.innerOk
  }

  // What happened to the last transaction of a run.
  function LastOutcome(txs: seq<Tx>, discard: bool): Outcome
    requires txs != []
  {
    Handle(Run(txs[..|txs| - 1], discard), txs[|txs| - 1]).1
  }

  // The last transaction went through all the checks, and its writes are kept.
  predicate Passed(txs: seq<Tx>, discard: bool)
    requires txs != []
  {
    !txs[|txs| - 1].simulate && LastOutcome(txs, discard) == Delegated && (discard ==> txs[|txs| - 1].innerOk)
  }

  ghost predicate Ordered(txs: seq<Tx>) {
    forall i, j :: 0 <= i < j < |txs| ==> txs[i].height <= txs[j].height
  }

  // The transactions of this sender at this height whose counter write is kept:
  // all that are submitted, or with discard all that pass and succeed.
  function Counted(txs: seq<Tx>, sender: string, h: Uint64, discard: bool): nat {
    if txs == [] then 0
    else
      var tx := txs[|txs| - 1];
      Counted(txs[..|txs| - 1], sender, h, discard)
      + (if !tx.simulate && tx.Sender() == sender && tx.height == h && (discard ==> Passed(txs, discard)) then 1 else 0)
  }

  datatype Pass = Never | At(height: Uint64)

  // When the transaction with this hash last passed.
  function LastPass(txs: seq<Tx>, hash: string, discard: bool): Pass {
    if txs == [] then Never
    else if Passed(txs, discard) && txs[|txs| - 1].hash == hash then At(txs[|txs| - 1].height)
    else LastPass(txs[..|txs| - 1], hash, discard)
  }

  // The prune bound in force: that of the last passing transaction.
  function LastBound(txs: seq<Tx>, discard: bool): Uint64 {
    if txs == [] then 0
    else if Passed(txs, discard) then PruneBound(txs[|txs| - 1].height)
    else LastBound(txs[..|txs| - 1], discard)
  }

  function Senders(txs: seq<Tx>): set<string> {
    set i | 0 <= i < |txs| :: txs[i].Sender()
  }

  lemma {:induction false} PrefixOrdered(txs: seq<Tx>)
    requires txs != [] && Ordered(txs)
    ensures Ordered(txs[..|txs| - 1])
    ensures forall tx :: tx in txs[..|txs| - 1] ==> tx.height <= txs[|txs| - 1].height
  {}

  // ---------- The counter ----------

  function Min(x: nat, y: nat): nat {
    if x < y then x else y
  }

  function CountAt(c: Counter, h: Uint64): nat {
    if c.height == h then c.count else 0
  }

  // What one transaction does to the counter of a sender.
  lemma {:induction false} HandleCounter(a: Ante, tx: Tx, sender: string)
    requires a.CounterOf(tx.Sender()).height <= tx.height && a.CounterOf(tx.Sender()).count <= LIMIT
    ensures var (b, outcome) := Handle(a, tx);
            var c := a.CounterOf(sender);
            if tx.simulate || tx.Sender() != sender || outcome == RateLimited then b.CounterOf(sender) == c
            else CountAt(c, tx.height) < LIMIT && b.CounterOf(sender) == Counter(tx.height, CountAt(c, tx.height) + 1)
    ensures Handle(a, tx).1 == RateLimited <==> !tx.simulate && CountAt(a.CounterOf(tx.Sender()), tx.height) == LIMIT
  {}

  // In every run the stored count is the number of counted transactions, capped at ten.
  lemma {:induction false} CounterIsCapped(txs: seq<Tx>, sender: string, h: Uint64, discard: bool)
    requires Ordered(txs) && forall tx :: tx in txs ==> tx.height <= h
    ensures Run(txs, discard).CounterOf(sender).height <= h
    ensures Run(txs, discard).CounterOf(sender).count <= LIMIT
    ensures CountAt(Run(txs, discard).CounterOf(sender), h) == Min(Counted(txs, sender, h, discard), 10)
  {
    if txs != [] {
      var init, tx := txs[..|txs| - 1], txs[|txs| - 1];
      PrefixOrdered(txs);
      assert tx in txs;
      assert forall t :: t in init ==> t in txs;
      CounterIsCapped(init, sender, h, discard);
      if tx.Sender() == sender {
        CounterIsCapped(init, sender, tx.height, discard);
        CounterStep(txs, h, discard);
      }
    }
  }

  lemma {:induction false} CounterStep(txs: seq<Tx>, h: Uint64, discard: bool)
    requires txs != [] && txs[|txs| - 1].height <= h
    requires var c := Run(txs[..|txs| - 1], discard).CounterOf(txs[|txs| - 1].Sender());
             c.height <= txs[|txs| - 1].height && c.count <= LIMIT
             && CountAt(c, h) == Min(Counted(txs[..|txs| - 1], txs[|txs| - 1].Sender(), h, discard), LIMIT)
    ensures var c := Run(txs, discard).CounterOf(txs[|txs| - 1].Sender());
            c.height <= h && c.count <= LIMIT
            && CountAt(c, h) == Min(Counted(txs, txs[|txs| - 1].Sender(), h, discard), LIMIT)
  {
    HandleCounter(Run(txs[..|txs| - 1], discard), txs[|txs| - 1], txs[|txs| - 1].Sender());
  }

  // The limit rejects a transaction exactly when ten of its sender were counted at
  // its height already; so the first ten reach the replay check and no others do.
  lemma {:induction false} RateLimitedExactly(txs: seq<Tx>, discard: bool)
    requires txs != [] && Ordered(txs)
    ensures var tx := txs[|txs| - 1];
            LastOutcome(txs, discard) == RateLimited
            <==> !tx.simulate && Counted(txs[..|txs| - 1], tx.Sender(), tx.height, discard) >= LIMIT
  {
    var tx := txs[|txs| - 1];
    PrefixOrdered(txs);
    CounterIsCapped(txs[..|txs| - 1], tx.Sender(), tx.height, discard);
    HandleCounter(Run(txs[..|txs| - 1], discard), tx, tx.Sender());
  }

  // The transactions of this signer among those counts.
  function CountedOf(txs: seq<Tx>, signer: string, h: Uint64, discard: bool): nat {
    if txs == [] then 0
    else
      var tx := txs[|txs| - 1];
      CountedOf(txs[..|txs| - 1], signer, h, discard)
      + (if !tx.simulate && tx.signer == signer && tx.height == h && (discard ==> Passed(txs, discard)) then 1 else 0)
  }

  lemma {:induction false} SignersAreCountedApart(txs: seq<Tx>, signer: string, h: Uint64, discard: bool)
    requires signer != ""
    ensures Counted(txs, signer, h, discard) == CountedOf(txs, signer, h, discard) + (if signer == "unknown" then CountedOf(txs, "", h, discard) else 0)
  {
    if txs != [] {
      SignersAreCountedApart(txs[..|txs| - 1], signer, h, discard);
    }
  }

  // The limit is ten per signer and height: no signer uses up the limit of another. The
  // transactions without a signer share one, with a signer called "unknown".
  lemma {:induction false} TenPerSigner(txs: seq<Tx>, discard: bool)
    requires txs != [] && Ordered(txs)
    ensures var tx, init := txs[|txs| - 1], txs[..|txs| - 1];
            LastOutcome(txs, discard) == RateLimited
            <==> !tx.simulate
                 && 10 <= if tx.signer != "" && tx.signer != "unknown" then CountedOf(init, tx.signer, tx.height, discard)
                          else CountedOf(init, "", tx.height, discard) + CountedOf(init, "unknown", tx.height, discard)
  {
    var tx, init := txs[|txs| - 1], txs[..|txs| - 1];
    RateLimitedExactly(txs, discard);
    SignersAreCountedApart(init, if tx.signer == "" then "unknown" else tx.signer, tx.height, discard);
  }

  // ---------- The replay store ----------

  // In every run the replay entries are exactly the passed hashes, stamped with their
  // latest passing height, whose stamp is not below the latest prune bound.
  lemma {:induction false} ReplayStoreIsHistory(txs: seq<Tx>, discard: bool)
    requires Ordered(txs)
    ensures forall x {:trigger LastPass(txs, x, discard)} ::
              (x in Run(txs, discard).seen <==> LastPass(txs, x, discard).At? && LastPass(txs, x, discard).height >= LastBound(txs, discard))
              && (x in Run(txs, discard).seen ==> Run(txs, discard).seen[x] == LastPass(txs, x, discard).height)
  {
    if txs != [] {
      var init, tx := txs[..|txs| - 1], txs[|txs| - 1];
      PrefixOrdered(txs);
      ReplayStoreIsHistory(init, discard);
      BoundIsBehind(init, tx.height, discard);
      forall x
        ensures x in Run(txs, discard).seen <==> LastPass(txs, x, discard).At? && LastPass(txs, x, discard).height >= LastBound(txs, discard)
        ensures x in Run(txs, discard).seen ==> Run(txs, discard).seen[x] == LastPass(txs, x, discard).height
      {
        assert LastPass(init, x, discard) == LastPass(init, x, discard);
      }
    }
  }

  lemma {:induction false} BoundIsBehind(txs: seq<Tx>, h: Uint64, discard: bool)
    requires forall tx :: tx in txs ==> tx.height <= h
    ensures LastBound(txs, discard) <= PruneBound(h)
  {
    if txs != [] {
      var init := txs[..|txs| - 1];
      assert txs[|txs| - 1] in txs;
      assert forall t :: t in init ==> t in txs;
      BoundIsBehind(init, h, discard);
    }
  }

  lemma {:induction false} LaterPass(txs: seq<Tx>, i: nat, discard: bool)
    requires i < |txs| && Ordered(txs) && Passed(txs[..i + 1], discard)
    ensures LastPass(txs, txs[i].hash, discard).At? && LastPass(txs, txs[i].hash, discard).height >= txs[i].height
    decreases |txs|
  {
    if i == |txs| - 1 {
      assert txs[..i + 1] == txs;
    } else {
      var init := txs[..|txs| - 1];
      assert init[..i + 1] == txs[..i + 1];
      PrefixOrdered(txs);
      LaterPass(init, i, discard);
    }
  }

  // A transaction that passed at height h does not get through the checks again at
  // any later step up to height h + 200, whatever the inner handler would say.
  lemma {:induction false} NoReplayWithinRetention(txs: seq<Tx>, i: nat, discard: bool)
    requires i < |txs| - 1 && Ordered(txs) && Passed(txs[..i + 1], discard)
    requires txs[|txs| - 1].hash == txs[i].hash && txs[|txs| - 1].height <= txs[i].height + 200
    ensures txs[|txs| - 1].simulate || LastOutcome(txs, discard) != Delegated
  {
    var init, tx := txs[..|txs| - 1], txs[|txs| - 1];
    assert init[..i + 1] == txs[..i + 1];
    PrefixOrdered(txs);
    LaterPass(init, i, discard);
    ReplayStoreIsHistory(init, discard);
    BoundIsBehind(init, tx.height, discard);
    assert LastPass(init, tx.hash, discard).height >= LastBound(init, discard);
  }

  // Exactly which counted transactions the replay check rejects.
  lemma {:induction false} ReplayedExactly(txs: seq<Tx>, discard: bool)
    requires txs != [] && Ordered(txs)
    ensures var tx, init := txs[|txs| - 1], txs[..|txs| - 1];
            LastOutcome(txs, discard) == Replayed
            <==> !tx.simulate && LastOutcome(txs, discard) != RateLimited
                 && LastPass(init, tx.hash, discard).At? && LastPass(init, tx.hash, discard).height >= LastBound(init, discard)
  {
    PrefixOrdered(txs);
    ReplayStoreIsHistory(txs[..|txs| - 1], discard);
    assert LastPass(txs[..|txs| - 1], txs[|txs| - 1].hash, discard) == LastPass(txs[..|txs| - 1], txs[|txs| - 1].hash, discard);
  }

  // ---------- The replay store is bounded ----------

  // Where an entry comes from: the height, sender and count of the submission that made it.
  datatype Slot = Slot(height: Uint64, sender: string, count: Uint64)

  function Slots(txs: seq<Tx>, discard: bool): map<string, Slot> {
    if txs == [] then map[]
    else
      var init, tx := txs[..|txs| - 1], txs[|txs| - 1];
      var slots := Slots(init, discard);
      if !Passed(txs, discard) then slots
      else
        (map x | x in slots && slots[x].height >= PruneBound(tx.height) :: slots[x])
        [tx.hash := Slot(tx.height, tx.Sender(), Run(txs, discard).CounterOf(tx.Sender()).count)]
  }

  // The submission of a slot is not after the last one its sender's counter has counted.
  ghost predicate IsCounted(slot: Slot, a: Ante) {
    var c := a.CounterOf(slot.sender);
    slot.height < c.height || (slot.height == c.height && slot.count <= c.count)
  }

  // The slots explain the replay entries of a: one slot per entry, all different.
  ghost predicate SlotsMatch(slots: map<string, Slot>, a: Ante, senders: set<string>) {
    && slots.Keys == a.seen.Keys
    && (forall x :: x in slots ==> slots[x].height == a.seen[x])
    && (forall x :: x in slots ==> slots[x].sender in senders && 1 <= slots[x].count <= LIMIT)
    && (forall x :: x in slots ==> IsCounted(slots[x], a))
    && (forall x, y :: x in slots && y in slots && x != y ==> slots[x] != slots[y])
  }

  lemma {:induction false} SlotsKeep(txs: seq<Tx>, discard: bool)
    requires Ordered(txs)
    ensures SlotsMatch(Slots(txs, discard), Run(txs, discard), Senders(txs))
  {
    if txs != [] {
      var init, tx := txs[..|txs| - 1], txs[|txs| - 1];
      var a := Run(init, discard);
      PrefixOrdered(txs);
      SlotsKeep(init, discard);
      CounterIsCapped(init, tx.Sender(), tx.height, discard);
      MoreSenders(txs);
      if Passed(txs, discard) {
        PassedSlots(Slots(init, discard), a, tx, Senders(txs));
      } else if discard && !Succeeds(LastOutcome(txs, discard), tx) {
        assert Run(txs, discard) == a;
      } else {
        UnchangedSlots(Slots(init, discard), a, tx, Senders(txs));
      }
    }
  }

  lemma {:induction false} MoreSenders(txs: seq<Tx>)
    requires txs != []
    ensures Senders(txs[..|txs| - 1]) <= Senders(txs) && txs[|txs| - 1].Sender() in Senders(txs)
  {}

  lemma {:induction false} StaysCounted(slot: Slot, a: Ante, tx: Tx)
    requires a.CounterOf(tx.Sender()).height <= tx.height && a.CounterOf(tx.Sender()).count <= LIMIT
    requires IsCounted(slot, a)
    ensures IsCounted(slot, Handle(a, tx).0)
  {
    HandleCounter(a, tx, slot.sender);
  }

  lemma {:induction false} UnchangedSlots(slots: map<string, Slot>, a: Ante, tx: Tx, senders: set<string>)
    requires a.CounterOf(tx.Sender()).height <= tx.height && a.CounterOf(tx.Sender()).count <= LIMIT
    requires SlotsMatch(slots, a, senders) && (tx.simulate || Handle(a, tx).1 != Delegated)
    ensures SlotsMatch(slots, Handle(a, tx).0, senders)
  {
    forall x | x in slots
      ensures IsCounted(slots[x], Handle(a, tx).0)
    {
      StaysCounted(slots[x], a, tx);
    }
  }

  // A passing transaction adds a slot of its own.
  lemma {:induction false} PassedSlots(slots: map<string, Slot>, a: Ante, tx: Tx, senders: set<string>)
    requires a.CounterOf(tx.Sender()).height <= tx.height && a.CounterOf(tx.Sender()).count <= LIMIT
    requires !tx.simulate && Handle(a, tx).1 == Delegated
    requires SlotsMatch(slots, a, senders) && tx.Sender() in senders
    ensures var b := Handle(a, tx).0;
            SlotsMatch((map x | x in slots && slots[x].height >= PruneBound(tx.height) :: slots[x])
                       [tx.hash := Slot(tx.height, tx.Sender(), b.CounterOf(tx.Sender()).count)], b, senders)
  {
    HandleCounter(a, tx, tx.Sender());
    forall x | x in slots
      ensures IsCounted(slots[x], Handle(a, tx).0)
    {
      StaysCounted(slots[x], a, tx);
    }
  }

  // In every reachable state the replay store has at most 201 x 10 entries per distinct sender seen.
  lemma {:induction false} ReplayStoreIsBounded(txs: seq<Tx>, discard: bool)
    requires Ordered(txs)
    ensures |Run(txs, discard).seen| <= 201 * 10 * |Senders(txs)|
  {
    SlotsKeep(txs, discard);
    WindowOfEntries(txs, discard);
    var slots := Slots(txs, discard);
    var bound := LastBound(txs, discard);
    ValuesOfInjective(slots);
    assert slots.Values <= Box(bound, 201, Senders(txs), 10);
    BoxSize(bound, 201, Senders(txs), 10);
    SubsetSize(slots.Values, Box(bound, 201, Senders(txs), 10));
    assert |Run(txs, discard).seen| == |Run(txs, discard).seen.Keys| == |slots.Keys|;
  }

  // All stamps lie in the 201 heights from the latest prune bound on.
  lemma {:induction false} WindowOfEntries(txs: seq<Tx>, discard: bool)
    requires Ordered(txs)
    ensures forall x :: x in Run(txs, discard).seen ==> LastBound(txs, discard) <= Run(txs, discard).seen[x] < LastBound(txs, discard) + 201
  {
    if txs != [] {
      PrefixOrdered(txs);
      WindowOfEntries(txs[..|txs| - 1], discard);
      StampsAreOld(txs[..|txs| - 1], txs[|txs| - 1].height, discard);
    }
  }

  lemma {:induction false} StampsAreOld(txs: seq<Tx>, h: Uint64, discard: bool)
    requires forall tx :: tx in txs ==> tx.height <= h
    ensures forall x :: x in Run(txs, discard).seen ==> Run(txs, discard).seen[x] <= h
  {
    if txs != [] {
      assert txs[|txs| - 1] in txs;
      assert forall t :: t in txs[..|txs| - 1] ==> t in txs;
      StampsAreOld(txs[..|txs| - 1], h, discard);
    }
  }

  ghost function Box(lo: nat, n: nat, senders: set<string>, k: nat): set<Slot>
    requires k < 100
  {
    set h: Uint64, s, c: Uint64 | lo <= h < lo + n && s in senders && 1 <= c <= k :: Slot(h, s, c)
  }

  lemma {:induction false} BoxSize(lo: nat, n: nat, senders: set<string>, k: nat)
    requires k < 100
    ensures |Box(lo, n, senders, k)| <= n * k * |senders|
  {
    if n != 0 {
      BoxSize(lo, n - 1, senders, k);
      LayerSize(lo + n - 1, senders, k);
      assert Box(lo, n, senders, k) == Box(lo, n - 1, senders, k) + Box(lo + n - 1, 1, senders, k);
      UnionSize(Box(lo, n - 1, senders, k), Box(lo + n - 1, 1, senders, k));
      Product(n, k, |senders|);
    } else {
      assert Box(lo, n, senders, k) == {};
    }
  }

  lemma {:induction false} Product(n: nat, k: nat, m: nat)
    requires n != 0
    ensures n * k * m == (n - 1) * k * m + k * m
  {}

  lemma {:induction false} LayerSize(h: nat, senders: set<string>, k: nat)
    requires k < 100
    ensures |Box(h, 1, senders, k)| <= k * |senders|
  {
    if senders == {} {
      assert Box(h, 1, senders, k) == {};
    } else {
      var s :| s in senders;
      LayerSize(h, senders - {s}, k);
      ColumnSize(h, s, k);
      assert Box(h, 1, senders, k) == Box(h, 1, senders - {s}, k) + Box(h, 1, {s}, k);
      UnionSize(Box(h, 1, senders - {s}, k), Box(h, 1, {s}, k));
      MulSuccessor(k, |senders - {s}|);
      assert senders == (senders - {s}) + {s};
    }
  }

  lemma {:induction false} ColumnSize(h: nat, s: string, k: nat)
    requires k < 100
    ensures |Box(h, 1, {s}, k)| <= k
  {
    if k == 0 {
      assert Box(h, 1, {s}, k) == {};
    } else {
      ColumnSize(h, s, k - 1);
      if h < 0x1_0000_0000_0000_0000 {
        assert Box(h, 1, {s}, k) == Box(h, 1, {s}, k - 1) + {Slot(h, s, k)};
      } else {
        assert Box(h, 1, {s}, k) == {};
      }
    }
  }

  lemma {:induction false} UnionSize<T>(a: set<T>, b: set<T>)
    ensures |a + b| <= |a| + |b|
  {}

  lemma {:induction false} SubsetSize<T>(a: set<T>, b: set<T>)
    requires a <= b
    ensures |a| <= |b|
  {
    assert b == a + (b - a);
  }

  lemma {:induction false} ValuesOfInjective<K, V>(m: map<K, V>)
    requires forall x, y :: x in m && y in m && x != y ==> m[x] != m[y]
    ensures |m.Values| == |m.Keys|
  {
    if m.Keys == {} {
      assert m.Values == {};
    } else {
      var x :| x in m;
      var rest := m - {x};
      ValuesOfInjective(rest);
      assert rest.Keys == m.Keys - {x};
      assert m.Values == rest.Values + {m[x]};
      assert m[x] !in rest.Values;
    }
  }
}
