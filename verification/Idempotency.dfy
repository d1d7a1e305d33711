/**
 The idempotency middleware as interleaved steps of any number of requests with one
 key. Each database operation is one atomic step; the only database fault is the
 duplicate-key error 11000; a handler calls `res.json` once. One clock in
 milliseconds serves them all. From 24 hours after its creation on, the TTL index may
 remove the record at any step, which ends one life of the key and starts the next.
 */
module Idempotency {

  // What a handler passes to res.json. `kept` is the part the record's schema
  // stores (txHash, balance, transfer), `rest` the part it drops. An absent
  // error is the empty string: both take the default message.
  datatype Data = Data(ok: bool, error: string, kept: string, rest: string)

  datatype Status = Pending | Success | Failed

  // life and creator are tags for the proof: the life of the key and the request
  // that created the record.
  datatype Record = Record(status: Status, result: string, error: string, createdAt: nat, life: nat, creator: nat)

  // The index on createdAt: { expires: 86400 }.
  const TTL: nat := 86400 * 1000

  datatype Stored = Absent | Present(record: Record)

  datatype Reply = Cached(result: string) | Refused(error: string) | StillProcessing

  // Where a request stands.
  datatype Pc =
    | Start                              // before the first findOne
    | ToCreate                           // found nothing, about to create
    | ToReread                           // lost the race, about to read again
    | Running(life: nat, since: nat)               // in the handler, since its create
    | Answered(life: nat, since: nat, data: Data)  // replied; the record update is in flight
    | Ran(life: nat, data: Data)                   // replied; the record update has landed
    | Duplicate(life: nat, reply: Reply)           // replied without running the handler

  datatype State = State(now: nat, stored: Stored, life: nat, pcs: map<nat, Pc>) {
    function At(p: nat): Pc {
      if p in pcs then pcs[p] else Start
    }

    function With(p: nat, pc: Pc): State {
      this.(pcs := pcs[p := pc])
    }
  }

  datatype Action = Find(p: nat) | Create(p: nat) | Reread(p: nat) | Finish(p: nat, data: Data) | Land(p: nat) | Expire | Tick(ms: nat)

  const INITIAL := State(0, Absent, 0, map[])

  const DEFAULT_ERROR: string := "Previous request failed"

  // The reply of a request that finds the record.
  function ReplyFor(r: Record): Reply {
    match r.status
    case Success => Cached(r.result)
    case Failed => Refused(if r.error == "" then DEFAULT_ERROR else r.error)
    case Pending => StillProcessing
  }

  // findOneAndUpdate with the handler's data.
  function Settle(r: Record, data: Data): Record {
    Record(if data.ok then Success else Failed,
           if data.ok then data.kept else "",
           if data.ok then "" else data.error,
           r.createdAt, r.life, r.creator)
  }

  // What the data of a finished handler tells every duplicate.
  function OutcomeOf(data: Data): Reply {
    if data.ok then Cached(data.kept)
    else Refused(if data.error == "" then DEFAULT_ERROR else data.error)
  }

  // One step; a step that is not enabled does nothing.
  function Next(s: State, a: Action): State {
    match a
    case Find(p) =>
      if s.At(p) != Start then s
      else if s.stored.Absent? then s.With(p, ToCreate)
      else s.With(p, Duplicate(s.life, ReplyFor(s.stored.record)))
    case Create(p) =>
      if s.At(p) != ToCreate then s
      else if s.stored.Present? then s.With(p, ToReread)
      else s.(stored := Present(Record(Pending, "", "", s.now, s.life, p))).With(p, Running(s.life, s.now))
    case Reread(p) =>
      if s.At(p) != ToReread then s
      else if s.stored.Absent? then s.With(p, Duplicate(s.life, StillProcessing))
      else s.With(p, Duplicate(s.life, ReplyFor(s.stored.record)))
    case Finish(p, data) =>
      if !s.At(p).Running? then s
      else s.With(p, Answered(s.At(p).life, s.At(p).since, data))
    case Land(p) =>
      if !s.At(p).Answered? then s
      else
        var data := s.At(p).data;
        var stored := if s.stored.Absent? then Absent else Present(Settle(s.stored.record, data));
        s.(stored := stored).With(p, Ran(s.At(p).life, data))
    case Expire =>
      if s.stored.Absent? || s.now < s.stored.record.createdAt + TTL then s
      else s.(stored := Absent, life := s.life + 1)
    case Tick(ms) => s.(now := s.now + ms)
  }

  function Run(acts: seq<Action>): State {
    if acts == [] then INITIAL else Next(Run(acts[..|acts| - 1]), acts[|acts| - 1])
  }

  // The collection and the requests under way: each method is the code one request
  // runs between two database operations.
  class Middleware {
    var now: nat
    var stored: Stored
    var life: nat
    var pcs: map<nat, Pc>

    constructor ()
      ensures View() == INITIAL
    {
      now, stored, life, pcs := 0, Absent, 0, map[];
    }

    ghost function View(): State
      reads this
    {
      State(now, stored, life, pcs)
    }

    function At(p: nat): Pc
      reads this
    {
      if p in pcs then pcs[p] else Start
    }

    // The first findOne, and the reply when it finds the record.
    method FindExisting(p: nat)
      requires At(p) == Start
      modifies this
      ensures View() == Next(old(View()), Find(p))
    {
      match stored
      case Absent => pcs := pcs[p := ToCreate];
      case Present(existing) =>
        var reply := ReplyTo(existing);
        pcs := pcs[p := Duplicate(life, reply)];
    }

    method ReplyTo(existing: Record) returns (reply: Reply)
      ensures reply == ReplyFor(existing)
      ensures existing.status == Success ==> reply == Cached(existing.result)
      ensures existing.status == Failed ==> reply == Refused(if existing.error == "" then "Previous request failed" else existing.error)
      ensures existing.status == Pending ==> reply == StillProcessing
    {
      if existing.status == Success {
        return Cached(existing.result);
      } else if existing.status == Failed {
        return Refused(if existing.error == "" then DEFAULT_ERROR else existing.error);
      }
      return StillProcessing;
    }

    // create: the unique index refuses a second record with code 11000.
    method CreatePending(p: nat)
      requires At(p) == ToCreate
      modifies this
      ensures View() == Next(old(View()), Create(p))
    {
      if stored.Present? {
        pcs := pcs[p := ToReread];
        return;
      }
      stored := Present(Record(Pending, "", "", now, life, p));
      pcs := pcs[p := Running(life, now)];
    }

    // The findOne after a lost race, which may find nothing any more.
    method RereadAfterRace(p: nat)
      requires At(p) == ToReread
      modifies this
      ensures View() == Next(old(View()), Reread(p))
    {
      var reply := StillProcessing;
      if stored.Present? {
        reply := ReplyTo(stored.record);
      }
      pcs := pcs[p := Duplicate(life, reply)];
    }

    // The replaced res.json: it starts the record's update and answers at once.
    method ResJson(p: nat, data: Data)
      requires At(p).Running?
      modifies this
      ensures View() == Next(old(View()), Finish(p, data))
    {
      pcs := pcs[p := Answered(At(p).life, At(p).since, data)];
    }

    // That update reaching the database; it matches on the key alone.
    method FindOneAndUpdate(p: nat)
      requires At(p).Answered?
      modifies this
      ensures View() == Next(old(View()), Land(p))
    {
      var data := At(p).data;
      if stored.Present? {
        var r := stored.record.(status := if data.ok then Success else Failed);
        r := r.(result := if data.ok then data.kept else "", error := if data.ok then "" else data.error);
        stored := Present(r);
      }
      pcs := pcs[p := Ran(At(p).life, data)];
    }

    // The TTL index removes the record once it is 24 hours old.
    method ExpireRecord()
      modifies this
      ensures View() == Next(old(View()), Expire)
    {
      if stored.Present? && stored.record.createdAt + TTL <= now {
        stored := Absent;
        life := life + 1;
      }
    }
  }

  // ---------- The handler starts at most once per life ----------

  predicate HasStarted(pc: Pc) {
    pc.Running? || pc.Answered? || pc.Ran?
  }

  ghost predicate OneStartPerLife(s: State) {
    forall p, q :: HasStarted(s.At(p)) && HasStarted(s.At(q)) && s.At(p).life == s.At(q).life ==> p == q
  }

  ghost predicate StartInv(s: State) {
    && OneStartPerLife(s)
    && (forall p :: HasStarted(s.At(p)) ==> s.At(p).life <= s.life)
    && (s.stored.Absent? ==> forall p :: HasStarted(s.At(p)) ==> s.At(p).life < s.life)
    && (s.stored.Present? ==>
          var r := s.stored.record;
          r.life == s.life && HasStarted(s.At(r.creator)) && s.At(r.creator).life == s.life)
  }

  // A step moves at most the request it names.
  lemma {:induction false} StepFrame(s: State, a: Action)
    ensures forall q :: Next(s, a).At(q) == s.At(q) || (!a.Expire? && q == a.p)
    ensures forall q :: HasStarted(s.At(q)) ==> HasStarted(Next(s, a).At(q)) && Next(s, a).At(q).life == s.At(q).life
  {}

  lemma {:induction false} StartStep(s: State, a: Action)
    requires StartInv(s)
    ensures StartInv(Next(s, a))
  {
    var t := Next(s, a);
    StepFrame(s, a);
    forall q | HasStarted(t.At(q))
      ensures (HasStarted(s.At(q)) && t.At(q).life == s.At(q).life)
           || (a == Create(q) && s.stored.Absent? && t.stored.Present? && t.At(q) == Running(s.life, s.now))
    {
    }
    forall p, q | HasStarted(t.At(p)) && HasStarted(t.At(q)) && t.At(p).life == t.At(q).life
      ensures p == q
    {
    }
  }

  // Under any interleaving, with expiry at any moment.
  lemma {:induction false} HandlerStartsOnce(acts: seq<Action>)
    ensures StartInv(Run(acts))
  {
    if acts != [] {
      HandlerStartsOnce(acts[..|acts| - 1]);
      StartStep(Run(acts[..|acts| - 1]), acts[|acts| - 1]);
    }
  }

  // ---------- Duplicates are told the winner's outcome ----------

  // In this life of the key a request has run and ended with what this reply says.
  predicate EndedWith(s: State, q: nat, life: nat, reply: Reply) {
    s.At(q).Ran? && s.At(q).life == life && reply == OutcomeOf(s.At(q).data)
  }

  // The reply is 202, or the outcome of the one request that ran in this life.
  ghost predicate IsRight(s: State, life: nat, reply: Reply) {
    reply == StillProcessing || exists q :: EndedWith(s, q, life, reply)
  }

  // A duplicate that looked now would be told right.
  ghost predicate RecordIsRight(s: State) {
    s.stored.Present? ==> IsRight(s, s.life, ReplyFor(s.stored.record))
  }

  // Every duplicate so far was told right.
  ghost predicate RepliesHold(s: State) {
    forall p :: s.At(p).Duplicate? ==> IsRight(s, s.At(p).life, s.At(p).reply)
  }

  // An update that lands on a record of a later life: its own expired before.
  predicate LandsLate(s: State, a: Action) {
    a.Land? && s.At(a.p).Answered? && s.stored.Present? && s.At(a.p).life != s.life
  }

  // A late landing with an outcome that no request of the record's own life has had.
  ghost predicate Misleads(s: State, a: Action) {
    LandsLate(s, a) && !IsRight(s, s.life, OutcomeOf(s.At(a.p).data))
  }

  ghost predicate NeverMisleads(acts: seq<Action>) {
    forall i :: 0 <= i < |acts| ==> !Misleads(Run(acts[..i]), acts[i])
  }

  lemma {:induction false} EndsStay(s: State, a: Action, q: nat, life: nat, reply: Reply)
    requires EndedWith(s, q, life, reply)
    ensures EndedWith(Next(s, a), q, life, reply)
  {}

  lemma {:induction false} StaysRight(s: State, a: Action, life: nat, reply: Reply)
    requires IsRight(s, life, reply)
    ensures IsRight(Next(s, a), life, reply)
  {
    if reply != StillProcessing {
      var q :| EndedWith(s, q, life, reply);
      EndsStay(s, a, q, life, reply);
    }
  }

  // A step leaves a right record right exactly when it does not mislead.
  lemma {:induction false} RecordStep(s: State, a: Action)
    requires StartInv(s) && RecordIsRight(s)
    ensures RecordIsRight(Next(s, a)) <==> !Misleads(s, a)
  {
    var t := Next(s, a);
    if s.stored.Present? {
      StaysRight(s, a, s.life, ReplyFor(s.stored.record));
    }
    if a.Land? && s.At(a.p).Answered? && s.stored.Present? {
      SettledReply(s.stored.record, s.At(a.p).data);
      if LandsLate(s, a) {
        LateStep(s, a);
      } else {
        assert EndedWith(t, a.p, t.life, ReplyFor(t.stored.record));
      }
    }
  }

  lemma {:induction false} SettledReply(r: Record, data: Data)
    ensures ReplyFor(Settle(r, data)) == OutcomeOf(data) != StillProcessing
    ensures data.ok ==> OutcomeOf(data) == Cached(data.kept)
    ensures !data.ok ==> OutcomeOf(data) == Refused(if data.error == "" then "Previous request failed" else data.error)
  {}

  lemma {:induction false} LateStep(s: State, a: Action)
    requires StartInv(s) && LandsLate(s, a)
    ensures RecordIsRight(Next(s, a)) <==> IsRight(s, s.life, OutcomeOf(s.At(a.p).data))
  {
    var t, reply := Next(s, a), OutcomeOf(s.At(a.p).data);
    SettledReply(s.stored.record, s.At(a.p).data);
    if IsRight(s, s.life, reply) {
      StaysRight(s, a, s.life, reply);
    }
    if IsRight(t, t.life, reply) {
      var q :| EndedWith(t, q, t.life, reply);
      assert EndedWith(s, q, s.life, reply);
    }
  }

  // Along a run the record is right at every moment, exactly when no landing misleads.
  lemma {:induction false} RecordIsRightExactly(acts: seq<Action>)
    ensures (forall i :: 0 <= i <= |acts| ==> RecordIsRight(Run(acts[..i]))) <==> NeverMisleads(acts)
  {
    if NeverMisleads(acts) {
      forall i | 0 <= i <= |acts|
        ensures RecordIsRight(Run(acts[..i]))
      {
        RecordStaysRight(acts, i);
      }
    } else if forall i :: 0 <= i <= |acts| ==> RecordIsRight(Run(acts[..i])) {
      var i :| 0 <= i < |acts| && Misleads(Run(acts[..i]), acts[i]);
      HandlerStartsOnce(acts[..i]);
      RecordStep(Run(acts[..i]), acts[i]);
      OneMore(acts, i);
      assert RecordIsRight(Run(acts[..i + 1]));
    }
  }

  lemma {:induction false} OneMore(acts: seq<Action>, i: nat)
    requires i < |acts|
    ensures Run(acts[..i + 1]) == Next(Run(acts[..i]), acts[i])
  {
    assert acts[..i + 1] == acts[..i] + [acts[i]];
    RunSnoc(acts[..i], acts[i]);
  }

  lemma {:induction false} RecordStaysRight(acts: seq<Action>, i: nat)
    requires i <= |acts| && NeverMisleads(acts)
    ensures RecordIsRight(Run(acts[..i]))
  {
    if i != 0 {
      RecordStaysRight(acts, i - 1);
      HandlerStartsOnce(acts[..i - 1]);
      RecordStep(Run(acts[..i - 1]), acts[i - 1]);
      OneMore(acts, i - 1);
    }
  }

  lemma {:induction false} RepliesStep(s: State, a: Action)
    requires RecordIsRight(s) && RepliesHold(s)
    ensures RepliesHold(Next(s, a))
  {
    var t := Next(s, a);
    forall p | t.At(p).Duplicate?
      ensures IsRight(t, t.At(p).life, t.At(p).reply)
    {
      if s.At(p).Duplicate? {
        StaysRight(s, a, s.At(p).life, s.At(p).reply);
      } else if s.stored.Present? {
        StaysRight(s, a, s.life, ReplyFor(s.stored.record));
      }
    }
  }

  // In every run in which no landing misleads, each duplicate gets 202 or the outcome
  // of the one request that ran in its life of the key.
  lemma {:induction false} DuplicatesGetWinnersOutcome(acts: seq<Action>, i: nat)
    requires i <= |acts| && NeverMisleads(acts)
    ensures RepliesHold(Run(acts[..i]))
  {
    if i != 0 {
      DuplicatesGetWinnersOutcome(acts, i - 1);
      RecordStaysRight(acts, i - 1);
      RepliesStep(Run(acts[..i - 1]), acts[i - 1]);
      OneMore(acts, i - 1);
    }
  }

  // ---------- How long a handler may take ----------

  predicate InFlight(pc: Pc) {
    pc.Running? || pc.Answered?
  }

  // A landing comes less than `bound` after its request created the record.
  predicate InTime(s: State, a: Action, bound: nat) {
    a.Land? && s.At(a.p).Answered? ==> s.now < s.At(a.p).since + bound
  }

  ghost predicate LandsWithin(acts: seq<Action>, bound: nat) {
    forall i :: 0 <= i < |acts| ==> InTime(Run(acts[..i]), acts[i], bound)
  }

  // A request still in flight in a later life was started a whole TTL ago.
  ghost predicate AgeInv(s: State) {
    forall p :: InFlight(s.At(p)) && s.At(p).life < s.life ==> s.At(p).since + TTL <= s.now
  }

  // One in flight in the life of the record started when the record was created.
  ghost predicate SinceInv(s: State) {
    s.stored.Present? ==> forall p :: InFlight(s.At(p)) && s.At(p).life == s.life ==> s.At(p).since == s.stored.record.createdAt
  }

  lemma {:induction false} FlightStep(s: State, a: Action, p: nat)
    requires InFlight(Next(s, a).At(p))
    ensures (InFlight(s.At(p)) && Next(s, a).At(p).life == s.At(p).life && Next(s, a).At(p).since == s.At(p).since)
         || (a == Create(p) && s.stored.Absent? && Next(s, a).At(p) == Running(s.life, s.now))
  {}

  lemma {:induction false} AgeStep(s: State, a: Action)
    requires StartInv(s) && AgeInv(s) && SinceInv(s)
    ensures AgeInv(Next(s, a))
  {
    forall p | InFlight(Next(s, a).At(p)) && Next(s, a).At(p).life < Next(s, a).life
      ensures Next(s, a).At(p).since + TTL <= Next(s, a).now
    {
      FlightStep(s, a, p);
    }
  }

  lemma {:induction false} SinceStep(s: State, a: Action)
    requires StartInv(s) && SinceInv(s)
    ensures SinceInv(Next(s, a))
  {
    forall p | Next(s, a).stored.Present? && InFlight(Next(s, a).At(p)) && Next(s, a).At(p).life == Next(s, a).life
      ensures Next(s, a).At(p).since == Next(s, a).stored.record.createdAt
    {
      FlightStep(s, a, p);
    }
  }

  lemma {:induction false} AgeKeeps(acts: seq<Action>)
    ensures AgeInv(Run(acts)) && SinceInv(Run(acts))
  {
    if acts != [] {
      AgeKeeps(acts[..|acts| - 1]);
      HandlerStartsOnce(acts[..|acts| - 1]);
      AgeStep(Run(acts[..|acts| - 1]), acts[|acts| - 1]);
      SinceStep(Run(acts[..|acts| - 1]), acts[|acts| - 1]);
    }
  }

  ghost predicate NoLateLanding(acts: seq<Action>) {
    forall i :: 0 <= i < |acts| ==> !LandsLate(Run(acts[..i]), acts[i])
  }

  // A run whose landings all come within the TTL has no late one.
  lemma {:induction false} InTimeIsNotLate(acts: seq<Action>, bound: nat)
    requires bound <= TTL && LandsWithin(acts, bound)
    ensures NoLateLanding(acts)
  {
    forall i | 0 <= i < |acts|
      ensures !LandsLate(Run(acts[..i]), acts[i])
    {
      HandlerStartsOnce(acts[..i]);
      AgeKeeps(acts[..i]);
      assert InTime(Run(acts[..i]), acts[i], bound);
    }
  }

  lemma {:induction false} NoExpiryOneLife(acts: seq<Action>)
    requires Expire !in acts
    ensures Run(acts).life == 0
  {
    if acts != [] {
      assert acts[|acts| - 1] in acts;
      NoExpiryOneLife(acts[..|acts| - 1]);
    }
  }

  // Neither has a run in which the record does not expire; it has one life of the key.
  lemma {:induction false} NoExpiryNoLateLanding(acts: seq<Action>)
    requires Expire !in acts
    ensures NoLateLanding(acts) && Run(acts).life == 0
  {
    NoExpiryOneLife(acts);
    forall i | 0 <= i < |acts|
      ensures !LandsLate(Run(acts[..i]), acts[i])
    {
      NoExpiryOneLife(acts[..i]);
      HandlerStartsOnce(acts[..i]);
    }
  }

  // The middleware keeps its promise to duplicates in every run exactly when handlers
  // and their updates take at most the 24 hours the record lives.
  lemma {:induction false} RepliesHoldExactly(bound: nat)
    ensures (forall acts :: LandsWithin(acts, bound) ==> RepliesHold(Run(acts))) <==> bound <= 24 * 60 * 60 * 1000
  {
    if bound <= TTL {
      forall acts | LandsWithin(acts, bound)
        ensures RepliesHold(Run(acts))
      {
        InTimeIsNotLate(acts, bound);
        assert forall i :: 0 <= i < |acts| ==> !LandsLate(Run(acts[..i]), acts[i]);
        DuplicatesGetWinnersOutcome(acts, |acts|);
        assert acts[..|acts|] == acts;
      }
    } else {
      var mine := Data(true, "", "", "");
      LateLandingHappens(mine, bound);
      assert !RepliesHold(Run(LateRun(mine)));
    }
  }

  // A handler that ends exactly 24 hours after it began, when the record has expired
  // and a second request has taken the key.
  function LateRun(mine: Data): seq<Action> {
    [Find(0), Create(0), Tick(TTL), Expire, Find(1), Create(1), Finish(0, mine), Land(0), Find(2)]
  }

  // Then a duplicate is told the first request's outcome while the handler of its own
  // life is still running.
  lemma {:induction false} LateLandingHappens(mine: Data, bound: nat)
    requires bound > TTL
    ensures Run(LateRun(mine)).At(1) == Running(1, TTL)
    ensures Run(LateRun(mine)).At(2) == Duplicate(1, OutcomeOf(mine))
    ensures LandsWithin(LateRun(mine), bound) && !RepliesHold(Run(LateRun(mine)))
  {
    LateStart(mine);
    LateEnd(Run(LateRun(mine)[..6]), mine);
    LastThree(LateRun(mine));
    LateIsInTime(mine, bound);
  }

  lemma {:induction false} LastThree(acts: seq<Action>)
    requires |acts| == 9
    ensures Run(acts[..7]) == Next(Run(acts[..6]), acts[6])
    ensures Run(acts) == Next(Next(Next(Run(acts[..6]), acts[6]), acts[7]), acts[8])
  {
    OneMore(acts, 6);
    OneMore(acts, 7);
    OneMore(acts, 8);
    assert acts[..9] == acts;
  }

  lemma {:induction false} LateIsInTime(mine: Data, bound: nat)
    requires bound > TTL
    ensures LandsWithin(LateRun(mine), bound)
  {
    var acts := LateRun(mine);
    LateStart(mine);
    LateEnd(Run(acts[..6]), mine);
    LastThree(acts);
    forall i | 0 <= i < |acts|
      ensures InTime(Run(acts[..i]), acts[i], bound)
    {
      assert acts[i].Land? ==> i == 7;
    }
  }

  // Both requests are running, each in its own life.
  predicate IsLate(s: State) {
    && s.now == TTL && s.life == 1 && s.stored == Present(Record(Pending, "", "", TTL, 1, 1))
    && s.pcs == map[0 := Running(0, 0), 1 := Running(1, TTL)]
  }

  lemma {:induction false} LateStart(mine: Data)
    ensures IsLate(Run(LateRun(mine)[..6]))
  {
    assert LateRun(mine)[..6] == [Find(0), Create(0), Tick(TTL), Expire, Find(1), Create(1)];
    RunOfSix(Find(0), Create(0), Tick(TTL), Expire, Find(1), Create(1));
    var s2 := Next(Next(INITIAL, Find(0)), Create(0));
    assert s2 == State(0, Present(Record(Pending, "", "", 0, 0, 0)), 0, map[0 := Running(0, 0)]);
    var s4 := Next(Next(s2, Tick(TTL)), Expire);
    assert s4 == State(TTL, Absent, 1, map[0 := Running(0, 0)]);
  }

  lemma {:induction false} LateEnd(s: State, mine: Data)
    requires IsLate(s)
    ensures var t := Next(Next(Next(s, Finish(0, mine)), Land(0)), Find(2));
            t.At(1) == Running(1, TTL) && t.At(2) == Duplicate(1, OutcomeOf(mine)) && !RepliesHold(t)
    ensures Next(s, Finish(0, mine)).At(0) == Answered(0, 0, mine) && Next(s, Finish(0, mine)).now == TTL
  {
    SettledReply(s.stored.record, mine);
    var t := Next(Next(Next(s, Finish(0, mine)), Land(0)), Find(2));
    assert t.At(2) == Duplicate(1, OutcomeOf(mine));
    assert !IsRight(t, 1, OutcomeOf(mine));
  }

  lemma {:induction false} RunOfThree(a: Action, b: Action, c: Action)
    ensures Run([a, b, c]) == Next(Next(Next(INITIAL, a), b), c)
  {
    RunSnoc([], a);
    assert [] + [a] == [a];
    RunSnoc([a], b);
    assert [a] + [b] == [a, b];
    RunSnoc([a, b], c);
    assert [a, b] + [c] == [a, b, c];
  }

  lemma {:induction false} RunOfSix(a: Action, b: Action, c: Action, d: Action, e: Action, f: Action)
    ensures Run([a, b, c, d, e, f]) == Next(Next(Next(Next(Next(Next(INITIAL, a), b), c), d), e), f)
  {
    RunOfThree(a, b, c);
    RunSnoc([a, b, c], d);
    assert [a, b, c] + [d] == [a, b, c, d];
    RunSnoc([a, b, c, d], e);
    assert [a, b, c, d] + [e] == [a, b, c, d, e];
    RunSnoc([a, b, c, d, e], f);
    assert [a, b, c, d, e] + [f] == [a, b, c, d, e, f];
  }

  lemma {:induction false} RunSnoc(acts: seq<Action>, a: Action)
    ensures Run(acts + [a]) == Next(Run(acts), a)
  {}

  // ---------- The record only settles ----------

  // The record is pending while its creator is in flight, and then tells its outcome.
  ghost predicate SettledInv(s: State) {
    s.stored.Present? ==>
      var r := s.stored.record;
      var winner := s.At(r.creator);
      if r.status == Pending then InFlight(winner) else winner.Ran? && ReplyFor(r) == OutcomeOf(winner.data)
  }

  lemma {:induction false} SettledStep(s: State, a: Action)
    requires StartInv(s) && SettledInv(s) && !LandsLate(s, a)
    ensures SettledInv(Next(s, a))
    ensures Next(s, a).life == s.life && s.stored.Present? && s.stored.record.status != Pending ==> Next(s, a).stored == s.stored
  {}

  lemma {:induction false} SettledKeeps(acts: seq<Action>)
    requires NoLateLanding(acts)
    ensures SettledInv(Run(acts))
  {
    if acts != [] {
      PrefixHasNone(acts);
      SettledKeeps(acts[..|acts| - 1]);
      HandlerStartsOnce(acts[..|acts| - 1]);
      SettledStep(Run(acts[..|acts| - 1]), acts[|acts| - 1]);
    }
  }

  // A request that looks the record up, first or after a lost race.
  predicate LooksUp(s: State, a: Action) {
    (a.Find? && s.At(a.p) == Start) || (a.Reread? && s.At(a.p) == ToReread)
  }

  // A known outcome is never withheld: 202 is for a pending record only.
  lemma {:induction false} KnownOutcomeIsTold(s: State, a: Action)
    requires LooksUp(s, a) && s.stored.Present?
    ensures var d := Next(s, a).At(a.p);
            d.Duplicate? && d.life == s.life && (d.reply == StillProcessing <==> s.stored.record.status == Pending)
  {}

  // A request alone with its key runs the handler; the loser of a race reads the record again
  // and is told what it says.
  lemma {:induction false} FirstRunsLoserRereads(s: State, p: nat)
    requires s.At(p) == if s.stored.Absent? then Start else ToCreate
    ensures s.stored.Absent? ==> var t := Next(Next(s, Find(p)), Create(p));
              t.At(p) == Running(s.life, s.now) && t.stored == Present(Record(Pending, "", "", s.now, s.life, p))
    ensures s.stored.Present? ==> var t := Next(Next(s, Create(p)), Reread(p));
              && t.stored == s.stored && t.At(p).Duplicate? && t.At(p).life == s.life
              && (s.stored.record.status == Success ==> t.At(p).reply == Cached(s.stored.record.result))
              && (t.At(p).reply == StillProcessing <==> s.stored.record.status == Pending)
  {}

  // Without late landings a duplicate that finds the record is told what the one request
  // of its life has reached: its outcome once its update has landed, and else 202.
  lemma {:induction false} DuplicateIsToldExactly(acts: seq<Action>, a: Action, winner: nat)
    requires NoLateLanding(acts) && LooksUp(Run(acts), a) && Run(acts).stored.Present?
    requires HasStarted(Run(acts).At(winner)) && Run(acts).At(winner).life == Run(acts).life
    ensures var w := Run(acts).At(winner);
            Run(acts + [a]).At(a.p) == Duplicate(Run(acts).life, if w.Ran? then OutcomeOf(w.data) else StillProcessing)
  {
    HandlerStartsOnce(acts);
    SettledKeeps(acts);
    RunSnoc(acts, a);
    assert winner == Run(acts).stored.record.creator;
  }

  // And there is such a request whenever there is a record.
  lemma {:induction false} RecordHasWinner(acts: seq<Action>)
    requires Run(acts).stored.Present?
    ensures exists q :: HasStarted(Run(acts).At(q)) && Run(acts).At(q).life == Run(acts).life
  {
    HandlerStartsOnce(acts);
  }

  lemma {:induction false} PrefixHasNone(acts: seq<Action>)
    requires acts != [] && NoLateLanding(acts)
    ensures NoLateLanding(acts[..|acts| - 1]) && !LandsLate(Run(acts[..|acts| - 1]), acts[|acts| - 1])
  {
    var init := acts[..|acts| - 1];
    forall j | 0 <= j < |init|
      ensures !LandsLate(Run(init[..j]), init[j])
    {
      assert init[..j] == acts[..j];
    }
  }

  // Without late landings, a settled record never changes again in its life.
  lemma {:induction false} SettledStays(acts: seq<Action>, i: nat)
    requires i <= |acts| && NoLateLanding(acts)
    requires Run(acts[..i]).life == Run(acts).life
    requires Run(acts[..i]).stored.Present? && Run(acts[..i]).stored.record.status != Pending
    ensures Run(acts).stored == Run(acts[..i]).stored
  {
    if i == |acts| {
      assert acts[..i] == acts;
    } else {
      var init := acts[..|acts| - 1];
      assert init[..i] == acts[..i];
      PrefixHasNone(acts);
      LifeStays(acts, i);
      SettledStays(init, i);
      SettledOnceMore(acts);
    }
  }

  lemma {:induction false} SettledOnceMore(acts: seq<Action>)
    requires acts != [] && NoLateLanding(acts)
    requires var s := Run(acts[..|acts| - 1]);
             s.life == Run(acts).life && s.stored.Present? && s.stored.record.status != Pending
    ensures Run(acts).stored == Run(acts[..|acts| - 1]).stored
  {
    PrefixHasNone(acts);
    HandlerStartsOnce(acts[..|acts| - 1]);
    SettledKeeps(acts[..|acts| - 1]);
    SettledStep(Run(acts[..|acts| - 1]), acts[|acts| - 1]);
  }

  lemma {:induction false} LifeStays(acts: seq<Action>, i: nat)
    requires i < |acts| && Run(acts[..i]).life == Run(acts).life
    ensures Run(acts[..|acts| - 1]).life == Run(acts).life
  {
    assert acts[..|acts| - 1][..i] == acts[..i];
    LifeGrows(acts[..|acts| - 1], i);
  }

  lemma {:induction false} LifeGrows(acts: seq<Action>, i: nat)
    requires i <= |acts|
    ensures Run(acts[..i]).life <= Run(acts).life
  {
    if i == |acts| {
      assert acts[..i] == acts;
    } else {
      assert acts[..|acts| - 1][..i] == acts[..i];
      LifeGrows(acts[..|acts| - 1], i);
    }
  }
}
