/**
 The ante wrapper over its byte-keyed store, as app.go runs it, proved to refine
 the two maps of AnteSpec. Keys are byte strings; values are byte sequences.
 */
module AnteStore {
  import opened Numerals
  import opened Text
  import opened AnteSpec

  type Bytes = seq<Byte>

  const RATE_PREFIX: string := "ante:rl:sender:"
  const RATE_SUFFIX: string := ":height"
  const REPLAY_PREFIX: string := "ante:replay:"

  function RateKey(sender: string): string {
    RATE_PREFIX + sender + RATE_SUFFIX
  }

  function ReplayKey(hash: string): string {
    REPLAY_PREFIX + hash
  }

  // binary.BigEndian.PutUint64
  function PutUint64(n: Uint64): (b: Bytes)
    ensures |b| == 8
  {
    Digits(n, 256, 8)
  }

  // binary.BigEndian.Uint64
  function GetUint64(b: Bytes): (n: Uint64)
    requires |b| == 8
  {
    Uint64Bound(b);
    Val(b, 256)
  }

  // storedHeight | count
  function PutCounter(c: Counter): (b: Bytes)
    ensures |b| == 16
  {
    PutUint64(c.height) + PutUint64(c.count)
  }

  lemma {:induction false} Uint64RoundTrip(n: Uint64)
    ensures GetUint64(PutUint64(n)) == n
  {
    assert Pow(256, 4) == 0x1_0000_0000;
    assert Pow(256, 8) == 0x1_0000_0000_0000_0000;
    ValOfDigits(n, 256, 8);
  }

  // Big-endian: the highest byte comes first.
  lemma {:induction false} HighByteFirst(bytes: Bytes, b: seq<nat>)
    requires |bytes| == 8 && b == bytes
    ensures GetUint64(bytes) == ((((((b[0] * 256 + b[1]) * 256 + b[2]) * 256 + b[3]) * 256 + b[4]) * 256 + b[5]) * 256 + b[6]) * 256 + b[7]
  {
    assert Val(b[..0], 256) == 0;
    NextByte(b, 0);
    NextByte(b, 1);
    NextByte(b, 2);
    NextByte(b, 3);
    NextByte(b, 4);
    NextByte(b, 5);
    NextByte(b, 6);
    NextByte(b, 7);
    assert b[..8] == b;
  }

  lemma {:induction false} NextByte(b: seq<nat>, i: nat)
    requires i < |b|
    ensures Val(b[..i + 1], 256) == Val(b[..i], 256) * 256 + b[i]
  {
    assert b[..i + 1] == b[..i] + [b[i]];
    ValOfSnoc(b[..i], b[i], 256);
  }

  lemma {:induction false} Uint64Bound(b: Bytes)
    requires |b| == 8
    ensures Val(b, 256) < 0x1_0000_0000_0000_0000
  {
    assert Pow(256, 4) == 0x1_0000_0000;
    assert Pow(256, 8) == 0x1_0000_0000_0000_0000;
    ValBound(b, 256);
  }

  lemma {:induction false} CounterRoundTrip(c: Counter)
    ensures GetUint64(PutCounter(c)[..8]) == c.height && GetUint64(PutCounter(c)[8..]) == c.count
  {
    assert PutCounter(c)[..8] == PutUint64(c.height) && PutCounter(c)[8..] == PutUint64(c.count);
    Uint64RoundTrip(c.height);
    Uint64RoundTrip(c.count);
  }

  // Rate keys are injective in the sender ...
  lemma {:induction false} RateKeyInjective(s: string, t: string)
    requires RateKey(s) == RateKey(t)
    ensures s == t
  {
    assert |RateKey(s)| == |RATE_PREFIX| + |s| + |RATE_SUFFIX|;
    assert RateKey(s)[|RATE_PREFIX|..|RATE_PREFIX| + |s|] == s;
    assert RateKey(t)[|RATE_PREFIX|..|RATE_PREFIX| + |t|] == t;
  }

  lemma {:induction false} ReplayKeyInjective(x: string, y: string)
    requires ReplayKey(x) == ReplayKey(y)
    ensures x == y
  {
    assert ReplayKey(x)[|REPLAY_PREFIX|..] == x && ReplayKey(y)[|REPLAY_PREFIX|..] == y;
  }

  // ... and never under the replay prefix.
  lemma {:induction false} RateKeyIsNoReplayKey(s: string)
    ensures !StartsWith(RateKey(s), REPLAY_PREFIX)
  {
    assert RateKey(s)[6] == RATE_PREFIX[6] == 'l';
    assert REPLAY_PREFIX[6] == 'e';
  }

  // ---------- Refinement ----------

  // The counter the code reads under a key: zero when absent or malformed.
  function ReadCounter(kv: map<string, Bytes>, key: string): (Uint64, Uint64) {
    if key in kv && |kv[key]| == 16 then (GetUint64(kv[key][..8]), GetUint64(kv[key][8..])) else (0, 0)
  }

  // What is missing or of another length counts as zero ...
  lemma {:induction false} MalformedCounterIsZero(kv: map<string, Bytes>, key: string)
    requires key in kv ==> |kv[key]| != 16
    ensures ReadCounter(kv, key) == (0, 0)
  {}

  // The keys as they lie in the store.
  lemma {:induction false} KeyLayout(sender: string, hash: string)
    ensures RateKey(sender) == "ante:rl:sender:" + sender + ":height" && ReplayKey(hash) == "ante:replay:" + hash
  {}

  ghost predicate CountersRefine(kv: map<string, Bytes>, a: Ante) {
    forall s {:trigger RateKey(s)} :: ReadCounter(kv, RateKey(s)) == (a.CounterOf(s).height, a.CounterOf(s).count)
  }

  ghost predicate SeenRefines(kv: map<string, Bytes>, a: Ante) {
    forall x {:trigger ReplayKey(x)} ::
      (ReplayKey(x) in kv <==> x in a.seen) && (x in a.seen ==> kv[ReplayKey(x)] == PutUint64(a.seen[x]))
  }

  ghost predicate Refines(kv: map<string, Bytes>, a: Ante) {
    CountersRefine(kv, a) && SeenRefines(kv, a)
  }

  lemma {:induction false} EmptyRefines()
    ensures Refines(map[], EMPTY)
  {}

  // The replay entries older than the bound.
  predicate IsStale(kv: map<string, Bytes>, key: string, bound: nat)
    requires key in kv
  {
    StartsWith(key, REPLAY_PREFIX) && |kv[key]| == 8 && GetUint64(kv[key]) < bound
  }

  function Pruned(kv: map<string, Bytes>, bound: nat): map<string, Bytes> {
    map k | k in kv && !IsStale(kv, k, bound) :: kv[k]
  }

  // ... and pruning leaves what is no eight-byte replay entry alone.
  lemma {:induction false} PrunedKeepsOthers(kv: map<string, Bytes>, key: string, bound: nat)
    requires key in kv && (|kv[key]| != 8 || !StartsWith(key, "ante:replay:") || GetUint64(kv[key]) >= bound)
    ensures key in Pruned(kv, bound) && Pruned(kv, bound)[key] == kv[key]
  {}

  lemma {:induction false} SetCounterRefines(kv: map<string, Bytes>, a: Ante, sender: string, c: Counter)
    requires Refines(kv, a)
    ensures Refines(kv[RateKey(sender) := PutCounter(c)], a.(counters := a.counters[sender := c]))
  {
    var kv', a' := kv[RateKey(sender) := PutCounter(c)], a.(counters := a.counters[sender := c]);
    CounterRoundTrip(c);
    forall s
      ensures ReadCounter(kv', RateKey(s)) == (a'.CounterOf(s).height, a'.CounterOf(s).count)
    {
      if RateKey(s) == RateKey(sender) {
        RateKeyInjective(s, sender);
      }
    }
    RateKeyIsNoReplayKey(sender);
    forall x
      ensures ReplayKey(x) != RateKey(sender)
    {
      assert ReplayKey(x)[..|REPLAY_PREFIX|] == REPLAY_PREFIX;
    }
  }

  // Pruning drops exactly the stale entries and never alters a counter.
  lemma {:induction false} PruneRefines(kv: map<string, Bytes>, a: Ante, bound: Uint64)
    requires Refines(kv, a)
    ensures Refines(Pruned(kv, bound), a.(seen := Prune(a.seen, bound)))
  {
    var kv', a' := Pruned(kv, bound), a.(seen := Prune(a.seen, bound));
    forall s
      ensures ReadCounter(kv', RateKey(s)) == (a'.CounterOf(s).height, a'.CounterOf(s).count)
    {
      RateKeyIsNoReplayKey(s);
    }
    forall x
      ensures ReplayKey(x) in kv' <==> x in a'.seen
      ensures x in a'.seen ==> kv'[ReplayKey(x)] == PutUint64(a'.seen[x])
    {
      assert ReplayKey(x)[..|REPLAY_PREFIX|] == REPLAY_PREFIX;
      if x in a.seen {
        Uint64RoundTrip(a.seen[x]);
      }
    }
  }

  lemma {:induction false} MarkRefines(kv: map<string, Bytes>, a: Ante, hash: string, h: Uint64)
    requires Refines(kv, a)
    ensures Refines(kv[ReplayKey(hash) := PutUint64(h)], a.(seen := a.seen[hash := h]))
  {
    var kv', a' := kv[ReplayKey(hash) := PutUint64(h)], a.(seen := a.seen[hash := h]);
    forall s
      ensures RateKey(s) != ReplayKey(hash)
    {
      RateKeyIsNoReplayKey(s);
      assert ReplayKey(hash)[..|REPLAY_PREFIX|] == REPLAY_PREFIX;
    }
    forall x
      ensures ReplayKey(x) in kv' <==> x in a'.seen
      ensures x in a'.seen ==> kv'[ReplayKey(x)] == PutUint64(a'.seen[x])
    {
      if ReplayKey(x) == ReplayKey(hash) {
        ReplayKeyInjective(x, hash);
      }
    }
  }

  // The store holds as many replay entries as its abstract replay map.
  lemma {:induction false} ReplayEntryCount(kv: map<string, Bytes>, a: Ante)
    requires Refines(kv, a)
    ensures |set k | k in kv && StartsWith(k, REPLAY_PREFIX)| == |a.seen|
  {
    var hashes := map k | k in kv && StartsWith(k, REPLAY_PREFIX) :: k[|REPLAY_PREFIX|..];
    forall k | k in hashes
      ensures k == ReplayKey(hashes[k])
    {
      assert k == k[..|REPLAY_PREFIX|] + k[|REPLAY_PREFIX|..];
    }
    forall x | x in a.seen
      ensures x in hashes.Values
    {
      assert ReplayKey(x)[..|REPLAY_PREFIX|] == REPLAY_PREFIX && ReplayKey(x)[|REPLAY_PREFIX|..] == x;
      assert ReplayKey(x) in hashes && hashes[ReplayKey(x)] == x;
    }
    assert hashes.Values == a.seen.Keys;
    ValuesOfInjective(hashes);
    assert hashes.Keys == set k | k in kv && StartsWith(k, REPLAY_PREFIX);
    assert |a.seen| == |a.seen.Keys|;
  }

  // ---------- The store ----------

  class Store {
    var kv: map<string, Bytes>
    ghost var view: Ante

    ghost predicate Valid()
      reads this
    {
      Refines(kv, view)
    }

    constructor ()
      ensures Valid() && view == EMPTY && kv == map[]
    {
      kv := map[];
      view := EMPTY;
      new;
      EmptyRefines();
    }

    // The counter block of innerAnte; updateRateLimitCounter is this on its own key and limit.
    method UpdateCounter(key: string, curH: Uint64, limit: Uint64) returns (allowed: bool, count: nat)
      modifies this`kv
      ensures var c := Bump(Counter(old(ReadCounter(kv, key)).0, old(ReadCounter(kv, key)).1), curH);
              count == c.count && allowed == (c.count <= limit)
              && kv == if allowed then old(kv)[key := PutCounter(c)] else old(kv)
    {
      var storedHeight: Uint64, stored: Uint64 := 0, 0;
      if key in kv && |kv[key]| == 16 {
        storedHeight := GetUint64(kv[key][..8]);
        stored := GetUint64(kv[key][8..]);
      }
      if storedHeight < curH {
        storedHeight := curH;
        stored := 1;
      } else {
        stored := (stored + 1) % 0x1_0000_0000_0000_0000;
      }
      count := stored;
      if stored > limit {
        return false, count;
      }
      kv := kv[key := PutCounter(Counter(storedHeight, stored))];
      allowed := true;
    }

    // pruneReplayKeys, and the same two passes in innerAnte: collect, then delete.
    method PruneReplayKeys(pruneBefore: nat)
      modifies this`kv
      ensures kv == Pruned(old(kv), pruneBefore)
    {
      if pruneBefore == 0 {
        return;
      }
      var toDelete := CollectStale(pruneBefore);
      DeleteAll(toDelete);
    }

    // The iterator's order does not matter.
    method CollectStale(pruneBefore: nat) returns (toDelete: seq<string>)
      ensures forall k :: k in toDelete <==> k in kv && IsStale(kv, k, pruneBefore)
    {
      toDelete := [];
      var rest := kv.Keys;
      while rest != {}
        invariant rest <= kv.Keys
        invariant forall k :: k in toDelete <==> k in kv && k !in rest && IsStale(kv, k, pruneBefore)
        decreases |rest|
      {
        var k :| k in rest;
        if StartsWith(k, REPLAY_PREFIX) && |kv[k]| == 8 {
          var seenH := GetUint64(kv[k]);
          if seenH < pruneBefore {
            toDelete := toDelete + [k];
          }
        }
        rest := rest - {k};
      }
    }

    method DeleteAll(keys: seq<string>)
      modifies this`kv
      ensures kv == map k | k in old(kv) && k !in keys :: old(kv)[k]
    {
      for i := 0 to |keys|
        invariant kv == map k | k in old(kv) && k !in keys[..i] :: old(kv)[k]
      {
        kv := kv - {keys[i]};
        assert keys[..i + 1] == keys[..i] + [keys[i]];
      }
      assert keys[..|keys|] == keys;
    }

    // innerAnte, up to the call of the inner handler.
    method InnerAnte(tx: Tx) returns (outcome: Outcome)
      requires Valid()
      modifies this
      ensures Valid()
      ensures view == Handle(old(view), tx).0 && outcome == Handle(old(view), tx).1
    {
      if tx.simulate {
        return Delegated;
      }
      var sender := if tx.signer == "" then "unknown" else tx.signer;
      var allowed := CountSubmission(sender, tx.height);
      if !allowed {
        return RateLimited;
      }
      var seen := CheckReplay(tx.hash, tx.height);
      outcome := if seen then Replayed else Delegated;
    }

    method CountSubmission(sender: string, curH: Uint64) returns (allowed: bool)
      requires Valid()
      modifies this
      ensures Valid()
      ensures var c := Bump(old(view).CounterOf(sender), curH);
              allowed == (c.count <= LIMIT)
              && view == if allowed then old(view).(counters := old(view).counters[sender := c]) else old(view)
    {
      var rlKey := RATE_PREFIX + sender + RATE_SUFFIX;
      assert rlKey == RateKey(sender);
      ghost var c := Bump(view.CounterOf(sender), curH);
      var ok, _ := UpdateCounter(rlKey, curH, LIMIT);
      allowed := ok;
      if allowed {
        SetCounterRefines(old(kv), view, sender, c);
        view := view.(counters := view.counters[sender := c]);
      }
    }

    method CheckReplay(hash: string, curH: Uint64) returns (seen: bool)
      requires Valid()
      modifies this
      ensures Valid()
      ensures seen == (hash in old(view).seen)
      ensures view == if seen then old(view) else old(view).(seen := Prune(old(view).seen, PruneBound(curH))[hash := curH])
    {
      var replayKey := REPLAY_PREFIX + hash;
      assert replayKey == ReplayKey(hash);
      if replayKey in kv {
        return true;
      }
      var pruneBefore := if RETENTION < curH then curH - RETENTION else 0;
      PruneRefines(kv, view, pruneBefore);
      PruneReplayKeys(pruneBefore);
      view := view.(seen := Prune(view.seen, pruneBefore));
      MarkRefines(kv, view, hash, curH);
      MarkReplaySeen(replayKey, curH);
      view := view.(seen := view.seen[hash := curH]);
      return false;
    }

    method MarkReplaySeen(replayKey: string, curH: Uint64)
      modifies this`kv
      ensures kv == old(kv)[replayKey := PutUint64(curH)]
    {
      kv := kv[replayKey := PutUint64(curH)];
    }

    // The caller: with `discard` it drops the writes of a transaction that does not succeed.
    method ProcessAll(txs: seq<Tx>, discard: bool)
      requires kv == map[] && view == EMPTY && Ordered(txs)
      modifies this
      ensures Valid() && view == Run(txs, discard)
      ensures |set k | k in kv && StartsWith(k, REPLAY_PREFIX)| <= 201 * 10 * |Senders(txs)|
    {
      EmptyRefines();
      for i := 0 to |txs|
        invariant Valid() && view == Run(txs[..i], discard)
      {
        var savedKv := kv;
        ghost var savedView := view;
        var outcome := InnerAnte(txs[i]);
        if discard && !Succeeds(outcome, txs[i]) {
          kv := savedKv;
          view := savedView;
        }
        assert txs[..i + 1][..i] == txs[..i];
      }
      assert txs[..|txs|] == txs;
      ReplayEntryCount(kv, view);
      ReplayStoreIsBounded(txs, discard);
    }
  }
}
