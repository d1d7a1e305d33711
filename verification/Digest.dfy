/**
 The digest flush of notificationDigest.js: due entries are grouped by user and
 channel, each group is sent at most once, and a group leaves the queue when it was
 delivered or can never be. The queue is not written to by anyone else meanwhile.
 */
module Digest {
  import opened Decimal
  import opened Text

  datatype Entry = Entry(id: nat, userId: string, channel: string, title: string, body: string, createdAt: nat, flushAfter: nat)

  datatype User = User(email: string, phone: string)

  datatype Message = Message(channel: string, to: string, subject: string, body: string)

  datatype Stats = Stats(flushed: nat, sent: nat, failed: nat)

  // `${entry.userId}:${entry.channel}`
  function Key(e: Entry): string {
    e.userId + ":" + e.channel
  }

  // const [userId, channel] = key.split(':'), on a key that has a colon.
  function SplitKey(key: string): (string, string)
    requires ':' in key
  {
    var rest := key[Find(key, ':') + 1..];
    (key[..Find(key, ':')], rest[..Find(rest, ':')])
  }

  // What findById answers for a user id while a group is flushed: each group asks anew,
  // and an answer is missing when there is no such user or the lookup failed.
  type Lookups = map<(string, string), User>

  // The address a group is sent to: "" when the channel is unknown, the user is not
  // found, the lookup failed, or the field is empty.
  function Destination(key: string, userId: string, channel: string, lookups: Lookups): string {
    if (key, userId) !in lookups then ""
    else if channel == "email" then lookups[(key, userId)].email
    else if channel == "sms" || channel == "whatsapp" then lookups[(key, userId)].phone
    else ""
  }

  function GroupDestination(key: string, lookups: Lookups): string
    requires ':' in key
  {
    Destination(key, SplitKey(key).0, SplitKey(key).1, lookups)
  }

  function Line(e: Entry, i: nat): string {
    Numeral(i + 1) + ". " + e.title + (if e.body == "" then "" else " \U{2014} " + e.body)
  }

  function Lines(entries: seq<Entry>): string {
    if entries == [] then "" else Lines(entries[..|entries| - 1]) + "\n" + Line(entries[|entries| - 1], |entries| - 1)
  }

  function DigestBody(entries: seq<Entry>): string
    requires entries != []
  {
    if |entries| == 1 then (if entries[0].body == "" then entries[0].title else entries[0].body)
    else "You have " + Numeral(|entries|) + " new notifications:" + Lines(entries)
  }

  function DigestSubject(entries: seq<Entry>): string
    requires entries != []
  {
    if |entries| == 1 then entries[0].title else "You have " + Numeral(|entries|) + " new notifications"
  }

  // ---------- Groups ----------

  function Keys(due: seq<Entry>): seq<string> {
    if due == [] then []
    else
      var init := Keys(due[..|due| - 1]);
      if Key(due[|due| - 1]) in init then init else init + [Key(due[|due| - 1])]
  }

  function Members(due: seq<Entry>, key: string): seq<Entry> {
    if due == [] then []
    else Members(due[..|due| - 1], key) + (if Key(due[|due| - 1]) == key then [due[|due| - 1]] else [])
  }

  // The due entries of a queue, each once, oldest first.
  ghost predicate IsDueList(due: seq<Entry>, queue: map<nat, Entry>, now: nat) {
    && (forall e :: e in due <==> e.id in queue && queue[e.id] == e && e.flushAfter <= now)
    && (forall i, j :: 0 <= i < j < |due| ==> due[i].id != due[j].id && due[i].createdAt <= due[j].createdAt)
  }

  lemma {:induction false} MembersExactly(due: seq<Entry>, key: string)
    ensures forall e :: e in Members(due, key) <==> e in due && Key(e) == key
  {
    if due != [] {
      MembersExactly(due[..|due| - 1], key);
      assert due == due[..|due| - 1] + [due[|due| - 1]];
    }
  }

  lemma {:induction false} KeysExactly(due: seq<Entry>)
    ensures forall k :: k in Keys(due) <==> exists e :: e in due && Key(e) == k
    ensures forall i, j :: 0 <= i < j < |Keys(due)| ==> Keys(due)[i] != Keys(due)[j]
    ensures forall k :: k in Keys(due) ==> ':' in k && Members(due, k) != []
  {
    if due != [] {
      var init, last := due[..|due| - 1], due[|due| - 1];
      KeysExactly(init);
      assert due == init + [last];
      assert Key(last)[|last.userId|] == ':';
    }
  }

  function SizeOfGroups(keys: seq<string>, due: seq<Entry>): nat {
    if keys == [] then 0 else SizeOfGroups(keys[..|keys| - 1], due) + |Members(due, keys[|keys| - 1])|
  }

  // The groups partition the due entries: one group per key, each with the entries of
  // that key in createdAt order, and all of them together as many as are due.
  lemma {:induction false} GroupsPartition(due: seq<Entry>, queue: map<nat, Entry>, now: nat)
    requires IsDueList(due, queue, now)
    ensures forall e :: e in due ==> Key(e) in Keys(due) && forall k :: e in Members(due, k) <==> k == Key(e)
    ensures forall k, i, j :: 0 <= i < j < |Members(due, k)| ==>
              Members(due, k)[i].id != Members(due, k)[j].id && Members(due, k)[i].createdAt <= Members(due, k)[j].createdAt
    ensures SizeOfGroups(Keys(due), due) == |due|
  {
    KeysExactly(due);
    forall k
      ensures forall e :: e in Members(due, k) <==> e in due && Key(e) == k
      ensures IsOrdered(Members(due, k))
    {
      MembersExactly(due, k);
      MembersOrdered(due, k);
    }
    GroupSizes(due);
  }

  ghost predicate IsOrdered(s: seq<Entry>) {
    forall i, j :: 0 <= i < j < |s| ==> s[i].id != s[j].id && s[i].createdAt <= s[j].createdAt
  }

  lemma {:induction false} MembersOrdered(due: seq<Entry>, key: string)
    requires IsOrdered(due)
    ensures IsOrdered(Members(due, key))
  {
    if due != [] {
      var init, last := due[..|due| - 1], due[|due| - 1];
      MembersOrdered(init, key);
      MembersExactly(init, key);
      forall e | e in init
        ensures e.id != last.id && e.createdAt <= last.createdAt
      {
        var i :| 0 <= i < |init| && init[i] == e;
        assert due[i] == e;
      }
      forall i | 0 <= i < |Members(init, key)|
        ensures Members(init, key)[i] in init
      {
        assert Members(init, key)[i] in Members(init, key);
      }
    }
  }

  lemma {:induction false} GroupSizes(due: seq<Entry>)
    ensures SizeOfGroups(Keys(due), due) == |due|
  {
    if due != [] {
      var init, last := due[..|due| - 1], due[|due| - 1];
      GroupSizes(init);
      KeysExactly(init);
      SizeOfOneMore(Keys(init), init, last);
      assert due == init + [last];
      if Key(last) !in Keys(init) {
        var keys := Keys(init) + [Key(last)];
        assert keys[..|keys| - 1] == Keys(init);
        MembersExactly(init, Key(last));
        NoMembers(init, Key(last));
      }
    }
  }

  lemma {:induction false} NoMembers(due: seq<Entry>, key: string)
    requires forall e :: e in due ==> Key(e) != key
    ensures Members(due, key) == []
  {
    if due != [] {
      assert due[|due| - 1] in due;
      NoMembers(due[..|due| - 1], key);
    }
  }

  lemma {:induction false} SizeOfOneMore(keys: seq<string>, due: seq<Entry>, e: Entry)
    requires forall i, j :: 0 <= i < j < |keys| ==> keys[i] != keys[j]
    ensures SizeOfGroups(keys, due + [e]) == SizeOfGroups(keys, due) + (if Key(e) in keys then 1 else 0)
  {
    assert (due + [e])[..|due|] == due;
    if keys != [] {
      var init, last := keys[..|keys| - 1], keys[|keys| - 1];
      SizeOfOneMore(init, due, e);
      assert keys == init + [last];
      assert last !in init;
    }
  }

  // Groups come in the order in which their keys first appear among the due entries.
  lemma {:induction false} KeysInOrder(due: seq<Entry>, i: nat, j: nat, q: nat)
    requires i < j < |Keys(due)| && q < |due| && Key(due[q]) == Keys(due)[j]
    ensures exists p :: 0 <= p < q && Key(due[p]) == Keys(due)[i]
  {
    var n := |due| - 1;
    var init := due[..n];
    if q < n {
      KeyIsListed(init, q);
      KeysExactly(due);
      KeysInOrder(init, i, j, q);
      var p :| 0 <= p < q && Key(init[p]) == Keys(init)[i];
      assert Key(due[p]) == Keys(due)[i];
    } else {
      var p := FirstOfKey(init, i);
      assert Key(due[p]) == Keys(due)[i];
    }
  }

  lemma {:induction false} KeyIsListed(due: seq<Entry>, q: nat)
    requires q < |due|
    ensures Key(due[q]) in Keys(due)
  {
    assert due[q] in due;
    KeysExactly(due);
  }

  lemma {:induction false} FirstOfKey(due: seq<Entry>, i: nat) returns (p: nat)
    requires i < |Keys(due)|
    ensures p < |due| && Key(due[p]) == Keys(due)[i]
  {
    var n := |due| - 1;
    if i < |Keys(due[..n])| {
      p := FirstOfKey(due[..n], i);
    } else {
      p := n;
    }
  }

  // With user ids that hold no colon (they are ObjectIds), a key is a user and a channel.
  lemma {:induction false} KeyIsUserAndChannel(e: Entry, f: Entry)
    requires ':' !in e.userId && ':' !in f.userId
    ensures Key(e) == Key(f) <==> e.userId == f.userId && e.channel == f.channel
    ensures ':' in Key(e)
    ensures ':' !in e.channel ==> SplitKey(Key(e)) == (e.userId, e.channel)
  {
    ColonOfKey(e);
    ColonOfKey(f);
    assert Key(e)[|e.userId|] == ':';
    assert Key(e)[..|e.userId|] == e.userId && Key(e)[|e.userId| + 1..] == e.channel;
    assert Key(f)[..|f.userId|] == f.userId && Key(f)[|f.userId| + 1..] == f.channel;
    if ':' !in e.channel {
      FindsFirst(e.channel, ':', |e.channel|);
      assert e.channel[..|e.channel|] == e.channel;
    }
  }

  lemma {:induction false} ColonOfKey(e: Entry)
    requires ':' !in e.userId
    ensures Find(Key(e), ':') == |e.userId|
  {
    var key := Key(e);
    assert key[|e.userId|] == ':';
    assert forall j :: 0 <= j < |e.userId| ==> key[j] == e.userId[j] && e.userId[j] in e.userId;
    FindsFirst(key, ':', |e.userId|);
  }

  // ---------- The flush ----------

  // Whether a group leaves the queue: nowhere to send it, or delivered.
  predicate GroupLeaves(key: string, lookups: Lookups, delivers: set<string>)
    requires ':' in key
  {
    GroupDestination(key, lookups) == "" || key in delivers
  }

  predicate EntryLeaves(e: Entry, now: nat, lookups: Lookups, delivers: set<string>) {
    assert Key(e)[|e.userId|] == ':';
    e.flushAfter <= now && GroupLeaves(Key(e), lookups, delivers)
  }

  // The one message of a group, if it has a destination.
  function GroupMessages(key: string, entries: seq<Entry>, lookups: Lookups): seq<Message>
    requires ':' in key && entries != []
  {
    var to := GroupDestination(key, lookups);
    if to == "" then [] else [Message(SplitKey(key).1, to, DigestSubject(entries), DigestBody(entries))]
  }

  // The group of an entry is sent to its own user over its own channel: email goes to the
  // email address, sms and whatsapp to the phone, and nothing when that is missing.
  lemma {:induction false} MessageOfGroup(e: Entry, entries: seq<Entry>, lookups: Lookups)
    requires ':' !in e.userId && ':' !in e.channel && entries != []
    ensures ':' in Key(e)
    ensures var to := if (Key(e), e.userId) !in lookups then ""
                      else if e.channel == "email" then lookups[(Key(e), e.userId)].email
                      else if e.channel == "sms" || e.channel == "whatsapp" then lookups[(Key(e), e.userId)].phone
                      else "";
            GroupMessages(Key(e), entries, lookups)
            == if to == "" then [] else [Message(e.channel, to, DigestSubject(entries), DigestBody(entries))]
  {
    KeyIsUserAndChannel(e, e);
  }

  // A single entry reads as a plain notification.
  lemma {:induction false} MessageOfOne(e: Entry)
    ensures DigestSubject([e]) == e.title
    ensures DigestBody([e]) == if e.body == "" then e.title else e.body
  {}

  // Several entries are announced by their number and listed in their order, ...
  lemma {:induction false} EveryEntryIsListed(entries: seq<Entry>, i: nat) returns (later: string)
    requires |entries| > 1 && i < |entries|
    ensures DigestSubject(entries) == "You have " + Numeral(|entries|) + " new notifications"
    ensures DigestBody(entries) == DigestSubject(entries) + ":" + (Lines(entries[..i]) + "\n" + Line(entries[i], i) + later)
    ensures (i == 0 ==> Lines(entries[..i]) == "") && (i == |entries| - 1 ==> later == "")
  {
    later := LinesContain(entries, i);
  }

  // ... each with its own number, its title and its body, if there is one.
  lemma {:induction false} LineOfEntry(e: Entry, i: nat)
    ensures e.body == "" ==> Line(e, i) == Numeral(i + 1) + ". " + e.title
    ensures e.body != "" ==> Line(e, i) == Numeral(i + 1) + ". " + e.title + " \U{2014} " + e.body
  {
    assert e.body == "" ==> Line(e, i) == Numeral(i + 1) + ". " + e.title + "";
    assert e.body != "" ==> Line(e, i) == Numeral(i + 1) + ". " + e.title + (" \U{2014} " + e.body);
  }

  lemma {:induction false} LinesContain(entries: seq<Entry>, i: nat) returns (later: string)
    requires i < |entries|
    ensures Lines(entries) == Lines(entries[..i]) + "\n" + Line(entries[i], i) + later
    ensures i == |entries| - 1 ==> later == ""
  {
    var n := |entries| - 1;
    if i == n {
      later := "";
    } else {
      var before := LinesContain(entries[..n], i);
      assert entries[..n][..i] == entries[..i];
      later := before + "\n" + Line(entries[n], n);
      JoinedLater(Lines(entries[..i]) + "\n" + Line(entries[i], i), before, "\n", Line(entries[n], n));
    }
  }

  lemma {:induction false} JoinedLater(a: string, b: string, c: string, d: string)
    ensures (a + b) + c + d == a + (b + c + d)
  {}

  // The messages of the groups, in order, and the statistics over them.
  function AllMessages(keys: seq<string>, due: seq<Entry>, lookups: Lookups): seq<Message>
    requires forall k :: k in keys ==> ':' in k && Members(due, k) != []
  {
    if keys == [] then []
    else
      var last := keys[|keys| - 1];
      AllMessages(keys[..|keys| - 1], due, lookups) + GroupMessages(last, Members(due, last), lookups)
  }

  function StatsAfter(before: Stats, key: string, entries: seq<Entry>, lookups: Lookups, sendOk: bool): Stats
    requires ':' in key
  {
    if GroupDestination(key, lookups) == "" then before
    else Stats(before.flushed + |entries|, before.sent + (if sendOk then 1 else 0), before.failed + (if sendOk then 0 else 1))
  }

  function AllStats(keys: seq<string>, due: seq<Entry>, lookups: Lookups, delivers: set<string>): Stats
    requires forall k :: k in keys ==> ':' in k
  {
    if keys == [] then Stats(0, 0, 0)
    else
      var last := keys[|keys| - 1];
      StatsAfter(AllStats(keys[..|keys| - 1], due, lookups, delivers), last, Members(due, last), lookups, last in delivers)
  }

  function DroppedSize(keys: seq<string>, due: seq<Entry>, lookups: Lookups): nat
    requires forall k :: k in keys ==> ':' in k
  {
    if keys == [] then 0
    else
      var last := keys[|keys| - 1];
      DroppedSize(keys[..|keys| - 1], due, lookups) + (if GroupDestination(last, lookups) == "" then |Members(due, last)| else 0)
  }

  // Every due entry is counted once, as flushed or in a dropped group; every message
  // is a send or a failure; and there is at most one message per group.
  lemma {:induction false} StatsAddUp(due: seq<Entry>, lookups: Lookups, delivers: set<string>)
    requires forall k :: k in Keys(due) ==> ':' in k && Members(due, k) != []
    ensures var st := AllStats(Keys(due), due, lookups, delivers);
            && st.flushed + DroppedSize(Keys(due), due, lookups) == |due|
            && |AllMessages(Keys(due), due, lookups)| == st.sent + st.failed <= |Keys(due)|
  {
    GroupSizes(due);
    StatsOfKeys(Keys(due), due, lookups, delivers);
  }

  lemma {:induction false} StatsOfKeys(keys: seq<string>, due: seq<Entry>, lookups: Lookups, delivers: set<string>)
    requires forall k :: k in keys ==> ':' in k && Members(due, k) != []
    ensures var st := AllStats(keys, due, lookups, delivers);
            && st.flushed + DroppedSize(keys, due, lookups) == SizeOfGroups(keys, due)
            && |AllMessages(keys, due, lookups)| == st.sent + st.failed <= |keys|
  {
    if keys != [] {
      StatsOfKeys(keys[..|keys| - 1], due, lookups, delivers);
    }
  }

  // The groups that have a destination, and are delivered or not.
  function Sending(keys: seq<string>, lookups: Lookups, delivers: set<string>, sendOk: bool): set<string>
    requires forall k :: k in keys ==> ':' in k
  {
    set k | k in keys && GroupDestination(k, lookups) != "" && (k in delivers) == sendOk
  }

  // A group is sent exactly when it has a destination; it then counts as sent when the
  // delivery succeeds, and as failed otherwise.
  lemma {:induction false} SentExactly(keys: seq<string>, due: seq<Entry>, lookups: Lookups, delivers: set<string>)
    requires forall k :: k in keys ==> ':' in k
    requires forall i, j :: 0 <= i < j < |keys| ==> keys[i] != keys[j]
    ensures var st := AllStats(keys, due, lookups, delivers);
            && st.sent == |Sending(keys, lookups, delivers, true)| && st.failed == |Sending(keys, lookups, delivers, false)|
  {
    if keys != [] {
      var n := |keys| - 1;
      SentExactly(keys[..n], due, lookups, delivers);
      SendingSnoc(keys[..n], keys[n], keys, lookups, delivers, true);
      SendingSnoc(keys[..n], keys[n], keys, lookups, delivers, false);
    }
  }

  lemma {:induction false} SendingSnoc(init: seq<string>, last: string, keys: seq<string>, lookups: Lookups, delivers: set<string>, sendOk: bool)
    requires keys == init + [last] && last !in init && forall k :: k in keys ==> ':' in k
    ensures |Sending(keys, lookups, delivers, sendOk)|
         == |Sending(init, lookups, delivers, sendOk)| + if GroupDestination(last, lookups) != "" && (last in delivers) == sendOk then 1 else 0
  {
    assert Sending(keys, lookups, delivers, sendOk)
        == Sending(init, lookups, delivers, sendOk) + if GroupDestination(last, lookups) != "" && (last in delivers) == sendOk then {last} else {};
  }

  // An entry leaves the queue exactly when it is due and its group was delivered, or can
  // never be: an unknown channel, no such user, or no address for the channel.
  lemma {:induction false} LeavesExactly(e: Entry, now: nat, lookups: Lookups, delivers: set<string>)
    requires ':' !in e.userId && ':' !in e.channel
    ensures EntryLeaves(e, now, lookups, delivers)
            <==> e.flushAfter <= now
                 && (Key(e) in delivers
                     || (Key(e), e.userId) !in lookups
                     || (e.channel == "email" && lookups[(Key(e), e.userId)].email == "")
                     || ((e.channel == "sms" || e.channel == "whatsapp") && lookups[(Key(e), e.userId)].phone == "")
                     || (e.channel != "email" && e.channel != "sms" && e.channel != "whatsapp"))
  {
    KeyIsUserAndChannel(e, e);
  }

  predicate HasId(entries: seq<Entry>, id: nat) {
    exists e :: e in entries && e.id == id
  }

  // The queue once the groups of some keys have been flushed.
  ghost function Flushed(queue: map<nat, Entry>, due: seq<Entry>, keys: seq<string>, lookups: Lookups, delivers: set<string>): map<nat, Entry>
    requires forall k :: k in keys ==> ':' in k
  {
    map id | id in queue && !(queue[id] in due && Key(queue[id]) in keys && GroupLeaves(Key(queue[id]), lookups, delivers)) :: queue[id]
  }

  // The ids deleted with a group are those of its queue entries.
  lemma {:induction false} GroupIds(queue: map<nat, Entry>, due: seq<Entry>, now: nat, key: string)
    requires IsDueList(due, queue, now)
    ensures forall id :: id in queue && HasId(Members(due, key), id) ==> queue[id] in due && Key(queue[id]) == key
    ensures forall id :: id in queue && queue[id].id == id && queue[id] in due && Key(queue[id]) == key ==> HasId(Members(due, key), id)
  {
    MembersExactly(due, key);
  }

  lemma {:induction false} FlushedStep(queue: map<nat, Entry>, due: seq<Entry>, now: nat, keys: seq<string>, key: string,
                                       lookups: Lookups, delivers: set<string>)
    requires IsDueList(due, queue, now) && (forall id :: id in queue ==> queue[id].id == id)
    requires ':' in key && forall k :: k in keys ==> ':' in k
    ensures forall k :: k in keys + [key] ==> ':' in k
    ensures Flushed(queue, due, keys + [key], lookups, delivers)
         == Without(Flushed(queue, due, keys, lookups, delivers), Members(due, key), GroupLeaves(key, lookups, delivers))
  {
    GroupIds(queue, due, now, key);
  }

  function Without(queue: map<nat, Entry>, entries: seq<Entry>, leaves: bool): map<nat, Entry> {
    if leaves then map id | id in queue && !HasId(entries, id) :: queue[id] else queue
  }

  // Where a flush stands after some of its groups.
  ghost predicate Progress(q0: map<nat, Entry>, sent0: seq<Message>, due: seq<Entry>, keys: seq<string>,
                           lookups: Lookups, delivers: set<string>,
                           queue: map<nat, Entry>, outbox: seq<Message>, stats: Stats) {
    && (forall k :: k in keys ==> ':' in k && Members(due, k) != [])
    && queue == Flushed(q0, due, keys, lookups, delivers)
    && outbox == sent0 + AllMessages(keys, due, lookups)
    && stats == AllStats(keys, due, lookups, delivers)
  }

  lemma {:induction false} ProgressStep(q0: map<nat, Entry>, sent0: seq<Message>, due: seq<Entry>, now: nat, keys: seq<string>, key: string,
                                        lookups: Lookups, delivers: set<string>,
                                        queue: map<nat, Entry>, outbox: seq<Message>, stats: Stats)
    requires IsDueList(due, q0, now) && (forall id :: id in q0 ==> q0[id].id == id)
    requires Progress(q0, sent0, due, keys, lookups, delivers, queue, outbox, stats)
    requires ':' in key && Members(due, key) != []
    ensures Progress(q0, sent0, due, keys + [key], lookups, delivers,
                     Without(queue, Members(due, key), GroupLeaves(key, lookups, delivers)),
                     outbox + GroupMessages(key, Members(due, key), lookups),
                     StatsAfter(stats, key, Members(due, key), lookups, key in delivers))
  {
    FlushedStep(q0, due, now, keys, key, lookups, delivers);
    assert (keys + [key])[..|keys|] == keys;
    OutboxGrows(sent0, AllMessages(keys, due, lookups), GroupMessages(key, Members(due, key), lookups));
  }

  lemma {:induction false} OutboxGrows(a: seq<Message>, b: seq<Message>, c: seq<Message>)
    ensures (a + b) + c == a + (b + c)
  {}

  lemma {:induction false} AllFlushed(queue: map<nat, Entry>, due: seq<Entry>, now: nat, lookups: Lookups, delivers: set<string>)
    requires IsDueList(due, queue, now) && (forall id :: id in queue ==> queue[id].id == id)
    requires forall k :: k in Keys(due) ==> ':' in k
    ensures Flushed(queue, due, Keys(due), lookups, delivers)
         == map id | id in queue && !EntryLeaves(queue[id], now, lookups, delivers) :: queue[id]
  {
    KeysExactly(due);
  }

  class Job {
    var queue: map<nat, Entry>
    var outbox: seq<Message>

    // flushDueDigests; `delivers` holds the keys of the groups whose send succeeds.
    method FlushDueDigests(now: nat, lookups: Lookups, delivers: set<string>) returns (stats: Stats, ghost due: seq<Entry>)
      requires forall id :: id in queue ==> queue[id].id == id
      modifies this
      ensures IsDueList(due, old(queue), now)
      ensures forall k :: k in Keys(due) ==> ':' in k && Members(due, k) != []
      ensures queue == map id | id in old(queue) && !EntryLeaves(old(queue)[id], now, lookups, delivers) :: old(queue)[id]
      ensures outbox == old(outbox) + AllMessages(Keys(due), due, lookups)
      ensures stats == AllStats(Keys(due), due, lookups, delivers)
    {
      var found := FindDue(now);
      due := found;
      KeysExactly(due);
      var keys, groups := GroupDue(found);
      stats := FlushGroups(keys, groups, lookups, delivers, now, due);
      AllFlushed(old(queue), due, now, lookups, delivers);
    }

    // The loop over the groups.
    method FlushGroups(keys: seq<string>, groups: map<string, seq<Entry>>, lookups: Lookups, delivers: set<string>,
                       ghost now: nat, ghost due: seq<Entry>) returns (stats: Stats)
      requires IsDueList(due, queue, now) && forall id :: id in queue ==> queue[id].id == id
      requires forall k :: k in keys ==> k in groups && groups[k] == Members(due, k) && ':' in k && Members(due, k) != []
      modifies this
      ensures Progress(old(queue), old(outbox), due, keys, lookups, delivers, queue, outbox, stats)
    {
      stats := Stats(0, 0, 0);
      for i := 0 to |keys|
        invariant Progress(old(queue), old(outbox), due, keys[..i], lookups, delivers, queue, outbox, stats)
      {
        assert keys[i] in keys;
        assert keys[..i + 1] == keys[..i] + [keys[i]];
        ProgressStep(old(queue), old(outbox), due, now, keys[..i], keys[i], lookups, delivers, queue, outbox, stats);
        stats := FlushGroup(keys[i], groups[keys[i]], lookups, keys[i] in delivers, stats);
      }
      assert keys[..|keys|] == keys;
    }

    method FlushGroup(key: string, entries: seq<Entry>, lookups: Lookups, sendOk: bool, before: Stats) returns (stats: Stats)
      requires ':' in key && entries != []
      modifies this
      ensures queue == Without(old(queue), entries, GroupDestination(key, lookups) == "" || sendOk)
      ensures outbox == old(outbox) + GroupMessages(key, entries, lookups)
      ensures stats == StatsAfter(before, key, entries, lookups, sendOk)
    {
      stats := before;
      var (userId, channel) := SplitKey(key);
      if channel != "email" && channel != "sms" && channel != "whatsapp" {
        DeleteMany(entries);
        return;
      }
      var to := Destination(key, userId, channel, lookups);
      if to == "" {
        DeleteMany(entries);
        return;
      }
      outbox := outbox + [Message(channel, to, DigestSubject(entries), DigestBody(entries))];
      if sendOk {
        DeleteMany(entries);
        stats := stats.(sent := stats.sent + 1);
      } else {
        stats := stats.(failed := stats.failed + 1);
      }
      stats := stats.(flushed := stats.flushed + |entries|);
    }

    method DeleteMany(entries: seq<Entry>)
      modifies this`queue
      ensures queue == Without(old(queue), entries, true)
    {
      queue := map id | id in queue && !HasId(entries, id) :: queue[id];
    }

    // The query: due entries, sorted by createdAt.
    method FindDue(now: nat) returns (due: seq<Entry>)
      requires forall id :: id in queue ==> queue[id].id == id
      ensures IsDueList(due, queue, now)
    {
      due := [];
      var rest := set id | id in queue && queue[id].flushAfter <= now;
      while rest != {}
        invariant rest <= queue.Keys && forall id :: id in rest ==> queue[id].flushAfter <= now
        invariant forall e :: e in due <==> e.id in queue && e.id !in rest && queue[e.id] == e && e.flushAfter <= now
        invariant IsOrdered(due)
        invariant forall e, id :: e in due && id in rest ==> e.createdAt <= queue[id].createdAt
        decreases |rest|
      {
        var oldest := Oldest(rest);
        forall i | 0 <= i < |due|
          ensures due[i].id != oldest && due[i].createdAt <= queue[oldest].createdAt
        {
          assert due[i] in due;
        }
        due := due + [queue[oldest]];
        rest := rest - {oldest};
      }
    }

    method Oldest(ids: set<nat>) returns (oldest: nat)
      requires ids != {} && ids <= queue.Keys
      ensures oldest in ids && forall id :: id in ids ==> queue[oldest].createdAt <= queue[id].createdAt
    {
      oldest :| oldest in ids;
      var rest := ids - {oldest};
      while rest != {}
        invariant rest <= ids && oldest in ids
        invariant forall id :: id in ids && id !in rest ==> queue[oldest].createdAt <= queue[id].createdAt
        decreases |rest|
      {
        var id :| id in rest;
        if queue[id].createdAt < queue[oldest].createdAt {
          oldest := id;
        }
        rest := rest - {id};
      }
    }
  }

  // The Map filled in one pass: its keys in insertion order, and its groups.
  method GroupDue(due: seq<Entry>) returns (keys: seq<string>, groups: map<string, seq<Entry>>)
    ensures keys == Keys(due)
    ensures forall k :: k in keys ==> k in groups && groups[k] == Members(due, k)
  {
    keys, groups := [], map[];
    for i := 0 to |due|
      invariant keys == Keys(due[..i])
      invariant forall k :: k in groups <==> k in keys
      invariant forall k :: k in keys ==> groups[k] == Members(due[..i], k)
    {
      assert due[..i + 1][..i] == due[..i];
      var key := Key(due[i]);
      if key !in groups {
        KeysExactly(due[..i]);
        NoMembers(due[..i], key);
        keys := keys + [key];
        groups := groups[key := []];
      }
      groups := groups[key := groups[key] + [due[i]]];
    }
    assert due[..|due|] == due;
  }
}
