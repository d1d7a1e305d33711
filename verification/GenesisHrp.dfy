/**
 The genesis address migration of fix_genesis_hrp.py: every string leaf of the
 JSON tree that is a Bech32 address with an old prefix is re-encoded under `mall`.
 */
module GenesisHrp {
  import opened Bech32
  import opened Text
  import ChecksumRegister

  // Values of json.loads. A dictionary keeps its keys in insertion order, beside its values.
  datatype Json =
    | Dict(keys: seq<string>, values: seq<Json>)
    | List(items: seq<Json>)
    | Str(s: string)
    | Scalar(text: string)

  datatype NewHrp = Keep | Replace(hrp: string)

  function ConvertHrp(hrp: string): NewHrp {
    if StartsWith(hrp, "mp") then Replace("mall" + hrp[2..])
    else if StartsWith(hrp, "marketplace") then Replace("mall" + hrp[|"marketplace"|..])
    else Keep
  }

  // What happens to one string leaf.
  function FixLeaf(s: string): string {
    match Decode(s)
    case NoAddress => s
    case Address(hrp, data) =>
      match ConvertHrp(hrp)
      case Keep => s
      case Replace(newHrp) => Encode(newHrp, data)
  }

  // ---------- What a tree is made of ----------

  // The tree with every string leaf blanked: its keys, lengths, order and other leaves.
  function Skeleton(obj: Json): Json
    decreases obj, 1
  {
    match obj
    case Dict(keys, values) => Dict(keys, Skeletons(values))
    case List(items) => List(Skeletons(items))
    case Str(_) => Str("")
    case Scalar(_) => obj
  }

  function Skeletons(items: seq<Json>): (r: seq<Json>)
    ensures |r| == |items|
    decreases items, 0
  {
    if items == [] then [] else Skeletons(items[..|items| - 1]) + [Skeleton(items[|items| - 1])]
  }

  // The string leaves in traversal order.
  function Leaves(obj: Json): seq<string>
    decreases obj, 1
  {
    match obj
    case Dict(_, values) => AllLeaves(values)
    case List(items) => AllLeaves(items)
    case Str(s) => [s]
    case Scalar(_) => []
  }

  function AllLeaves(items: seq<Json>): seq<string>
    decreases items, 0
  {
    if items == [] then [] else AllLeaves(items[..|items| - 1]) + Leaves(items[|items| - 1])
  }

  // Skeleton and leaves together determine the tree.
  lemma {:induction false} TreeIsSkeletonAndLeaves(a: Json, b: Json)
    requires Skeleton(a) == Skeleton(b) && Leaves(a) == Leaves(b)
    ensures a == b
    decreases a, 1
  {
    match a
    case Dict(_, values) => ForestIsSkeletonsAndLeaves(values, b.values);
    case List(items) => ForestIsSkeletonsAndLeaves(items, b.items);
    case Str(_) =>
    case Scalar(_) =>
  }

  lemma {:induction false} ForestIsSkeletonsAndLeaves(a: seq<Json>, b: seq<Json>)
    requires Skeletons(a) == Skeletons(b) && AllLeaves(a) == AllLeaves(b)
    ensures a == b
    decreases a, 0
  {
    if a != [] {
      var n := |a| - 1;
      assert |Skeletons(a)| == |a| && |Skeletons(b)| == |b|;
      assert Skeletons(a)[..n] == Skeletons(a[..n]) && Skeletons(b)[..n] == Skeletons(b[..n]);
      assert Skeletons(a)[n] == Skeleton(a[n]) && Skeletons(b)[n] == Skeleton(b[n]);
      SameLeafCount(a[n], b[n]);
      var k := |AllLeaves(a[..n])|;
      assert AllLeaves(a) == AllLeaves(a[..n]) + Leaves(a[n]);
      assert AllLeaves(b) == AllLeaves(b[..n]) + Leaves(b[n]);
      assert AllLeaves(a)[..k] == AllLeaves(a[..n]) && AllLeaves(a)[k..] == Leaves(a[n]);
      assert AllLeaves(b)[..k] == AllLeaves(b[..n]) && AllLeaves(b)[k..] == Leaves(b[n]);
      TreeIsSkeletonAndLeaves(a[n], b[n]);
      ForestIsSkeletonsAndLeaves(a[..n], b[..n]);
      assert a == a[..n] + [a[n]] && b == b[..n] + [b[n]];
    }
  }

  lemma {:induction false} SameLeafCount(a: Json, b: Json)
    requires Skeleton(a) == Skeleton(b)
    ensures |Leaves(a)| == |Leaves(b)|
    decreases a, 1
  {
    match a
    case Dict(_, values) => SameLeafCounts(values, b.values);
    case List(items) => SameLeafCounts(items, b.items);
    case Str(_) =>
    case Scalar(_) =>
  }

  lemma {:induction false} SameLeafCounts(a: seq<Json>, b: seq<Json>)
    requires Skeletons(a) == Skeletons(b)
    ensures |AllLeaves(a)| == |AllLeaves(b)|
    decreases a, 0
  {
    assert |Skeletons(a)| == |a| && |Skeletons(b)| == |b|;
    if a != [] {
      var n := |a| - 1;
      assert Skeletons(a)[..n] == Skeletons(a[..n]) && Skeletons(b)[..n] == Skeletons(b[..n]);
      assert Skeletons(a)[n] == Skeleton(a[n]) && Skeletons(b)[n] == Skeleton(b[n]);
      SameLeafCounts(a[..n], b[..n]);
      SameLeafCount(a[n], b[n]);
    }
  }

  // ---------- What the walk does ----------

  // after is before with every leaf fixed.
  ghost predicate AreFixed(before: seq<string>, after: seq<string>) {
    |after| == |before| && forall i :: 0 <= i < |before| ==> after[i] == FixLeaf(before[i])
  }

  // The leaves that differ, each with its replacement, in order.
  function Changes(before: seq<string>, after: seq<string>): seq<(string, string)>
    requires |before| == |after|
  {
    if before == [] then []
    else
      var n := |before| - 1;
      Changes(before[..n], after[..n]) + (if after[n] != before[n] then [(before[n], after[n])] else [])
  }

  // before becomes after, logging changed.
  ghost predicate Migrates(before: Json, after: Json, changed: seq<(string, string)>) {
    && Skeleton(after) == Skeleton(before)
    && AreFixed(Leaves(before), Leaves(after))
    && changed == Changes(Leaves(before), Leaves(after))
  }

  // The leaf at the end of a path of positions.
  predicate Holds(obj: Json, path: seq<nat>, leaf: Json) {
    if path == [] then obj == leaf && (leaf.Str? || leaf.Scalar?)
    else match obj
      case Dict(_, values) => path[0] < |values| && Holds(values[path[0]], path[1..], leaf)
      case List(items) => path[0] < |items| && Holds(items[path[0]], path[1..], leaf)
      case Str(_) => false
      case Scalar(_) => false
  }

  // So every string, however deep, is replaced in its own place, and every other value stays in its.
  lemma {:induction false} EveryLeafInItsPlace(before: Json, after: Json, changed: seq<(string, string)>, path: seq<nat>, leaf: Json)
    requires Migrates(before, after, changed) && Holds(before, path, leaf)
    ensures Holds(after, path, if leaf.Str? then Str(FixLeaf(leaf.s)) else leaf)
  {
    LeafInItsPlace(before, after, path, leaf);
  }

  lemma {:induction false} LeafInItsPlace(before: Json, after: Json, path: seq<nat>, leaf: Json)
    requires Skeleton(after) == Skeleton(before) && AreFixed(Leaves(before), Leaves(after)) && Holds(before, path, leaf)
    ensures Holds(after, path, if leaf.Str? then Str(FixLeaf(leaf.s)) else leaf)
    decreases |path|
  {
    if path != [] {
      match before
      case Dict(_, values) =>
        ChildIsFixed(values, after.values, path[0]);
        LeafInItsPlace(values[path[0]], after.values[path[0]], path[1..], leaf);
      case List(items) =>
        ChildIsFixed(items, after.items, path[0]);
        LeafInItsPlace(items[path[0]], after.items[path[0]], path[1..], leaf);
    } else if before.Str? {
      assert Leaves(after)[0] == FixLeaf(Leaves(before)[0]);
    }
  }

  lemma {:induction false} ChildIsFixed(before: seq<Json>, after: seq<Json>, k: nat)
    requires Skeletons(after) == Skeletons(before) && AreFixed(AllLeaves(before), AllLeaves(after)) && k < |before|
    ensures |after| == |before| && Skeleton(after[k]) == Skeleton(before[k]) && AreFixed(Leaves(before[k]), Leaves(after[k]))
  {
    var n := |before| - 1;
    assert |Skeletons(after)| == |after| && |Skeletons(before)| == |before|;
    assert Skeletons(after)[..n] == Skeletons(after[..n]) && Skeletons(before)[..n] == Skeletons(before[..n]);
    assert Skeletons(after)[n] == Skeleton(after[n]) && Skeletons(before)[n] == Skeleton(before[n]);
    SameLeafCounts(before[..n], after[..n]);
    PartsAreFixed(AllLeaves(before[..n]), Leaves(before[n]), AllLeaves(after[..n]), Leaves(after[n]));
    if k < n {
      ChildIsFixed(before[..n], after[..n], k);
    }
  }

  lemma {:induction false} PartsAreFixed(a: seq<string>, b: seq<string>, c: seq<string>, d: seq<string>)
    requires |a| == |c| && AreFixed(a + b, c + d)
    ensures AreFixed(a, c) && AreFixed(b, d)
  {
    forall i | 0 <= i < |a|
      ensures c[i] == FixLeaf(a[i])
    {
      assert (a + b)[i] == a[i] && (c + d)[i] == c[i];
    }
    forall i | 0 <= i < |b|
      ensures d[i] == FixLeaf(b[i])
    {
      assert (a + b)[|a| + i] == b[i] && (c + d)[|a| + i] == d[i];
    }
  }

  class ChangeLog {
    var changed: seq<(string, string)>

    constructor ()
      ensures changed == []
    {
      changed := [];
    }
  }

  // main, between reading the file and writing it back.
  method MigrateGenesis(data: Json) returns (newData: Json, changed: seq<(string, string)>)
    ensures Migrates(data, newData, changed)
  {
    var log := new ChangeLog();
    newData := WalkAndFix(data, log);
    changed := log.changed;
    assert [] + changed == changed;
  }

  method WalkAndFix(obj: Json, log: ChangeLog) returns (r: Json)
    modifies log
    ensures Skeleton(r) == Skeleton(obj)
    ensures AreFixed(Leaves(obj), Leaves(r))
    ensures log.changed == old(log.changed) + Changes(Leaves(obj), Leaves(r))
    decreases obj, 1
  {
    match obj
    case Dict(keys, values) =>
      var fixedValues := WalkAll(values, log);
      r := Dict(keys, fixedValues);
    case List(items) =>
      var fixedItems := WalkAll(items, log);
      r := List(fixedItems);
    case Str(s) =>
      var fixedString := FixString(s, log);
      r := Str(fixedString);
      OneLeaf(s, fixedString);
    case Scalar(_) =>
      r := obj;
  }

  method WalkAll(items: seq<Json>, log: ChangeLog) returns (r: seq<Json>)
    modifies log
    ensures Skeletons(r) == Skeletons(items)
    ensures AreFixed(AllLeaves(items), AllLeaves(r))
    ensures log.changed == old(log.changed) + Changes(AllLeaves(items), AllLeaves(r))
    decreases items, 0
  {
    r := [];
    for i := 0 to |items|
      invariant Skeletons(r) == Skeletons(items[..i])
      invariant AreFixed(AllLeaves(items[..i]), AllLeaves(r))
      invariant log.changed == old(log.changed) + Changes(AllLeaves(items[..i]), AllLeaves(r))
    {
      ghost var logged := log.changed;
      var item := WalkAndFix(items[i], log);
      OneMoreItem(items, i, r, item);
      LogGrows(old(log.changed), Changes(AllLeaves(items[..i]), AllLeaves(r)), Changes(Leaves(items[i]), Leaves(item)));
      r := r + [item];
    }
    assert items[..|items|] == items;
  }

  lemma {:induction false} LogGrows(a: seq<(string, string)>, b: seq<(string, string)>, c: seq<(string, string)>)
    ensures (a + b) + c == a + (b + c)
  {}

  lemma {:induction false} OneMoreItem(items: seq<Json>, i: nat, r: seq<Json>, item: Json)
    requires i < |items|
    requires Skeletons(r) == Skeletons(items[..i]) && Skeleton(item) == Skeleton(items[i])
    requires AreFixed(AllLeaves(items[..i]), AllLeaves(r)) && AreFixed(Leaves(items[i]), Leaves(item))
    ensures Skeletons(r + [item]) == Skeletons(items[..i + 1])
    ensures AreFixed(AllLeaves(items[..i + 1]), AllLeaves(r + [item]))
    ensures Changes(AllLeaves(items[..i + 1]), AllLeaves(r + [item]))
         == Changes(AllLeaves(items[..i]), AllLeaves(r)) + Changes(Leaves(items[i]), Leaves(item))
  {
    SnocItem(items[..i], items[i]);
    SnocItem(r, item);
    assert items[..i + 1] == items[..i] + [items[i]];
    FixedParts(AllLeaves(items[..i]), AllLeaves(r), Leaves(items[i]), Leaves(item));
    ChangesOfConcat(AllLeaves(items[..i]), AllLeaves(r), Leaves(items[i]), Leaves(item));
  }

  lemma {:induction false} SnocItem(r: seq<Json>, item: Json)
    ensures AllLeaves(r + [item]) == AllLeaves(r) + Leaves(item)
    ensures Skeletons(r + [item]) == Skeletons(r) + [Skeleton(item)]
  {}

  lemma {:induction false} FixedParts(a: seq<string>, a': seq<string>, b: seq<string>, b': seq<string>)
    requires AreFixed(a, a') && AreFixed(b, b')
    ensures AreFixed(a + b, a' + b')
  {}

  lemma {:induction false} ChangesOfConcat(a: seq<string>, a': seq<string>, b: seq<string>, b': seq<string>)
    requires |a| == |a'| && |b| == |b'|
    ensures Changes(a + b, a' + b') == Changes(a, a') + Changes(b, b')
  {
    if b == [] {
      assert a + b == a && a' + b' == a';
    } else {
      var n := |b| - 1;
      ChangesOfConcat(a, a', b[..n], b'[..n]);
      assert a + b == (a + b[..n]) + [b[n]] && a' + b' == (a' + b'[..n]) + [b'[n]];
      ChangesSnoc(a + b[..n], a' + b'[..n], b[n], b'[n]);
    }
  }

  lemma {:induction false} ChangesSnoc(a: seq<string>, a': seq<string>, s: string, t: string)
    requires |a| == |a'|
    ensures Changes(a + [s], a' + [t]) == Changes(a, a') + (if t != s then [(s, t)] else [])
  {
    assert (a + [s])[..|a|] == a && (a' + [t])[..|a|] == a';
  }

  lemma {:induction false} OneLeaf(s: string, t: string)
    requires t == FixLeaf(s)
    ensures AreFixed([s], [t])
    ensures Changes([s], [t]) == if t != s then [(s, t)] else []
  {}

  // The string branch of walk_and_fix.
  method FixString(s: string, log: ChangeLog) returns (r: string)
    modifies log
    ensures r == FixLeaf(s)
    ensures log.changed == old(log.changed) + (if FixLeaf(s) != s then [(s, FixLeaf(s))] else [])
  {
    var decoded := Bech32Decode(s);
    if decoded.Address? {
      var newHrp := ConvertHrp(decoded.hrp);
      if newHrp.Replace? {
        r := Encode(newHrp.hrp, decoded.data);
        ReplacedLeafChanges(s);
        log.changed := log.changed + [(s, r)];
        return;
      }
    }
    r := s;
  }

  // ---------- What a migrated leaf is ----------

  lemma {:induction false} ConvertedHrp(hrp: string)
    requires ConvertHrp(hrp).Replace?
    ensures StartsWith(ConvertHrp(hrp).hrp, "mall") && ConvertHrp(ConvertHrp(hrp).hrp) == Keep
    ensures IsPlain(hrp) ==> IsPlain(ConvertHrp(hrp).hrp)
  {
    var n := if StartsWith(hrp, "mp") then 2 else |"marketplace"|;
    MallIsFinal(hrp[n..]);
    assert hrp == hrp[..n] + hrp[n..];
    PlainParts(hrp[..n], hrp[n..]);
    PlainChars("mall");
    PlainParts("mall", hrp[n..]);
  }

  lemma {:induction false} MallIsFinal(suffix: string)
    ensures StartsWith("mall" + suffix, "mall") && ConvertHrp("mall" + suffix) == Keep
  {
    var h := "mall" + suffix;
    assert h[1] == 'a' && h[2] == 'l';
    assert "marketplace"[2] == 'r' && "mp"[1] == 'p';
  }

  // A rewritten address keeps its five-bit payload, and its prefix is final.
  lemma {:induction false} RewrittenKeepsPayload(s: string)
    requires Decode(s).Address? && ConvertHrp(Decode(s).hrp).Replace?
    ensures Decode(FixLeaf(s)) == Address(ConvertHrp(Decode(s).hrp).hrp, Decode(s).data)
  {
    var hrp, data := Decode(s).hrp, Decode(s).data;
    DecodeInvertsEncode(s, hrp, data);
    PrefixOfLowered(s, hrp, data);
    ConvertedHrp(hrp);
    EncodeDecodes(ConvertHrp(hrp).hrp, data);
  }

  lemma {:induction false} PrefixOfLowered(s: string, hrp: string, data: seq<ChecksumRegister.Symbol>)
    requires IsPrintable(s) && Lower(s) == Encode(hrp, data)
    ensures IsPlain(hrp)
  {
    PlainChars(hrp);
    forall i | 0 <= i < |hrp|
      ensures IsPlainChar(hrp[i])
    {
      assert hrp[i] == Encode(hrp, data)[i] == LowerChar(s[i]);
    }
  }

  lemma {:induction false} ReplacedLeafChanges(s: string)
    requires Decode(s).Address? && ConvertHrp(Decode(s).hrp).Replace?
    ensures FixLeaf(s) != s
  {}

  lemma {:induction false} FixedLeafIsFinal(s: string)
    ensures FixLeaf(FixLeaf(s)) == FixLeaf(s)
  {
    if Decode(s).Address? && ConvertHrp(Decode(s).hrp).Replace? {
      RewrittenKeepsPayload(s);
      ConvertedHrp(Decode(s).hrp);
    }
  }

  lemma {:induction false} FixedEncoding(hrp: string, data: seq<ChecksumRegister.Symbol>)
    requires hrp != "" && IsPlain(hrp)
    ensures FixLeaf(Encode(hrp, data)) == if ConvertHrp(hrp).Replace? then Encode(ConvertHrp(hrp).hrp, data) else Encode(hrp, data)
  {
    EncodeDecodes(hrp, data);
  }

  // An address under an old prefix becomes the one of the same payload under the new
  // prefix, and whatever follows the old prefix is kept.
  lemma {:induction false} OldPrefixIsReplaced(suffix: string, data: seq<ChecksumRegister.Symbol>)
    requires IsPlain(suffix)
    ensures FixLeaf(Encode("mp" + suffix, data)) == Encode("mall" + suffix, data)
    ensures FixLeaf(Encode("marketplace" + suffix, data)) == Encode("mall" + suffix, data)
  {
    PrefixIsReplaced("mp", suffix, data);
    PrefixIsReplaced("marketplace", suffix, data);
  }

  lemma {:induction false} PrefixIsReplaced(prefix: string, suffix: string, data: seq<ChecksumRegister.Symbol>)
    requires IsPlain(suffix) && (prefix == "mp" || prefix == "marketplace")
    ensures FixLeaf(Encode(prefix + suffix, data)) == Encode("mall" + suffix, data)
  {
    PlainChars(prefix);
    PlainParts(prefix, suffix);
    Suffixes(suffix);
    FixedEncoding(prefix + suffix, data);
  }

  lemma {:induction false} Suffixes(suffix: string)
    ensures ConvertHrp("mp" + suffix) == Replace("mall" + suffix)
    ensures ConvertHrp("marketplace" + suffix) == Replace("mall" + suffix)
  {
    var m, k := "mp" + suffix, "marketplace" + suffix;
    assert m[..2] == "mp" && m[2..] == suffix;
    assert k[..11] == "marketplace" && k[11..] == suffix && k[1] == 'a';
  }

  // An address under any other prefix stays as it is.
  lemma {:induction false} OtherPrefixStays(hrp: string, data: seq<ChecksumRegister.Symbol>)
    requires hrp != "" && IsPlain(hrp) && !StartsWith(hrp, "mp") && !StartsWith(hrp, "marketplace")
    ensures FixLeaf(Encode(hrp, data)) == Encode(hrp, data)
  {
    FixedEncoding(hrp, data);
  }

  // A second migration changes nothing and logs nothing.
  lemma {:induction false} MigrationIsIdempotent(before: Json, after: Json, again: Json,
                                                 changed: seq<(string, string)>, changedAgain: seq<(string, string)>)
    requires Migrates(before, after, changed) && Migrates(after, again, changedAgain)
    ensures again == after && changedAgain == []
  {
    FixedTwice(Leaves(before), Leaves(after), Leaves(again));
    NoChanges(Leaves(after));
    TreeIsSkeletonAndLeaves(again, after);
  }

  lemma {:induction false} FixedTwice(a: seq<string>, b: seq<string>, c: seq<string>)
    requires AreFixed(a, b) && AreFixed(b, c)
    ensures c == b
  {
    forall i | 0 <= i < |b|
      ensures c[i] == b[i]
    {
      FixedLeafIsFinal(a[i]);
    }
  }

  lemma {:induction false} NoChanges(leaves: seq<string>)
    ensures Changes(leaves, leaves) == []
  {
    if leaves != [] {
      NoChanges(leaves[..|leaves| - 1]);
    }
  }

  // A leaf is logged exactly when it is an address with an old prefix.
  lemma {:induction false} ChangedLeaves(s: string)
    ensures FixLeaf(s) != s <==> Decode(s).Address? && (StartsWith(Decode(s).hrp, "mp") || StartsWith(Decode(s).hrp, "marketplace"))
  {}
}
