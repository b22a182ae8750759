/**
 The single-flight cache (`cache/data.ts`): any number of `get` calls share, for every key, a data entry
 and a lock in Redis, both with expiry, and a publish/subscribe channel that may lose messages.

 Every Redis command, and every call that is executed, is one step. A `get` is known by its number,
 which also stands for its random lock value.
 */
module Cache {
  import opened Wrappers
  import opened Binary
  import Seqs

  type Key = string

  type Value = string

  // ----- messages -----

  /** `successResult` and `errorResult`. */
  datatype Message = Success(data: Value) | Error(err: string)

  /** `parseExecuteResult`: the published error is thrown again. */
  function ParseExecuteResult(m: Message): Result<Value> {
    match m
    case Success(data) => Ok(data)
    case Error(err) => Err(err)
  }

  // ----- one `get` -----

  /** The command that a `get` is waiting for. */
  datatype Pc =
    | FirstGet
    | PlainExecute
    | PlainSet(value: Value)
    | LoopGet
    | AcquireLock
    | Execute
    | SetData(value: Value)
    | Publish(value: Value)
    | ReleaseGet(value: Value)
    | ReleaseDel(value: Value)
    | PublishError
    | ErrorReleaseGet
    | ErrorReleaseDel
    | Subscribed
    | CheckTimeOut
    | Returned(value: Value)
    | Thrown

  /** `released` tells whether the DEL of its own lock was applied. */
  datatype Client = Client(
    key: Key, lockEnabled: bool, pc: Pc, inbox: Option<Message>, executions: nat, released: bool)

  /** What Redis holds, and every value that an execution has produced so far. */
  datatype Shared = Shared(data: map<Key, Value>, locks: map<Key, nat>, produced: set<(Key, Value)>)

  /**
   How the awaited command ends. A failing command may still have been `applied`; an error is `quiet`
   when its text contains "request to", and is then not published.
   */
  datatype Outcome =
    | Fine
    | RedisFails(applied: bool, quiet: bool)
    | Executes(value: Value)
    | ExecutionFails(quiet: bool)
    | TimesOut

  /** The next state of one `get`, the new shared state, whether a call was executed, whether the lock was
      deleted, and what is published. */
  datatype Effect = Effect(pc: Pc, shared: Shared, executed: bool, deleted: bool, message: Option<Message>)

  function Quietly(pc: Pc, sh: Shared): Effect {
    Effect(pc, sh, false, false, None)
  }

  function Executed(pc: Pc, sh: Shared): Effect {
    Effect(pc, sh, true, false, None)
  }

  function Published(pc: Pc, sh: Shared, message: Option<Message>): Effect {
    Effect(pc, sh, false, false, message)
  }

  function Deleted(pc: Pc, sh: Shared, key: Key, applied: bool): Effect {
    Effect(pc, if applied then Unlock(sh, key) else sh, false, applied, None)
  }

  /** Where the `catch` block starts. */
  function Caught(quiet: bool): Pc {
    if quiet then ErrorReleaseGet else PublishError
  }

  function Put(sh: Shared, key: Key, value: Value): Shared {
    sh.(data := sh.data[key := value])
  }

  function Unlock(sh: Shared, key: Key): Shared {
    sh.(locks := sh.locks - {key})
  }

  function Act(id: nat, c: Client, sh: Shared, o: Outcome): Option<Effect> {
    match c.pc
    case FirstGet =>
      (match o
       case Fine =>
         Some(Quietly(if c.key in sh.data then Returned(sh.data[c.key])
                      else if c.lockEnabled then LoopGet else PlainExecute, sh))
       case RedisFails(_, _) => Some(Quietly(Thrown, sh))
       case _ => None)
    case PlainExecute =>
      (match o
       case Executes(v) => Some(Executed(PlainSet(v), sh.(produced := sh.produced + {(c.key, v)})))
       case ExecutionFails(_) => Some(Executed(Thrown, sh))
       case _ => None)
    case PlainSet(v) =>
      (match o
       case Fine => Some(Quietly(Returned(v), Put(sh, c.key, v)))
       case RedisFails(applied, _) => Some(Quietly(Thrown, if applied then Put(sh, c.key, v) else sh))
       case _ => None)
    case LoopGet =>
      (match o
       case Fine => Some(Quietly(if c.key in sh.data then Returned(sh.data[c.key]) else AcquireLock, sh))
       case RedisFails(_, _) => Some(Quietly(Thrown, sh))
       case _ => None)
    case AcquireLock =>
      var taken := if c.key in sh.locks then sh else sh.(locks := sh.locks[c.key := id]);
      (match o
       case Fine => Some(Quietly(if c.key in sh.locks then Subscribed else Execute, taken))
       case RedisFails(applied, _) => Some(Quietly(Thrown, if applied then taken else sh))
       case _ => None)
    case Execute =>
      (match o
       case Executes(v) => Some(Executed(SetData(v), sh.(produced := sh.produced + {(c.key, v)})))
       case ExecutionFails(quiet) => Some(Executed(Caught(quiet), sh))
       case _ => None)
    case SetData(v) =>
      (match o
       case Fine => Some(Quietly(Publish(v), Put(sh, c.key, v)))
       case RedisFails(applied, quiet) => Some(Quietly(Caught(quiet), if applied then Put(sh, c.key, v) else sh))
       case _ => None)
    case Publish(v) =>
      (match o
       case Fine => Some(Published(ReleaseGet(v), sh, Some(Success(v))))
       case RedisFails(applied, quiet) =>
         Some(Published(Caught(quiet), sh, if applied then Some(Success(v)) else None))
       case _ => None)
    case ReleaseGet(v) =>
      (match o
       case Fine => Some(Quietly(if c.key in sh.locks && sh.locks[c.key] == id then ReleaseDel(v) else Returned(v), sh))
       case RedisFails(_, quiet) => Some(Quietly(Caught(quiet), sh))
       case _ => None)
    case ReleaseDel(v) =>
      (match o
       case Fine => Some(Deleted(Returned(v), sh, c.key, true))
       case RedisFails(applied, quiet) => Some(Deleted(Caught(quiet), sh, c.key, applied))
       case _ => None)
    case PublishError =>
      (match o
       case Fine => Some(Published(ErrorReleaseGet, sh, Some(Error("error"))))
       case RedisFails(applied, _) => Some(Published(Thrown, sh, if applied then Some(Error("error")) else None))
       case _ => None)
    case ErrorReleaseGet =>
      (match o
       case Fine => Some(Quietly(if c.key in sh.locks && sh.locks[c.key] == id then ErrorReleaseDel else Thrown, sh))
       case RedisFails(_, _) => Some(Quietly(Thrown, sh))
       case _ => None)
    case ErrorReleaseDel =>
      (match o
       case Fine => Some(Deleted(Thrown, sh, c.key, true))
       case RedisFails(applied, _) => Some(Deleted(Thrown, sh, c.key, applied))
       case _ => None)
    case Subscribed =>
      (match o
       case Fine =>
         if c.inbox.None? then None
         else
           var parsed := ParseExecuteResult(c.inbox.value);
           Some(Quietly(if parsed.Ok? then Returned(parsed.value) else Thrown, sh))
       case TimesOut => Some(Quietly(CheckTimeOut, sh))
       case RedisFails(_, _) => Some(Quietly(Thrown, sh))
       case _ => None)
    case CheckTimeOut =>
      (match o
       case Fine => Some(Quietly(LoopGet, sh))
       case TimesOut => Some(Quietly(Thrown, sh))
       case _ => None)
    case Returned(_) => None
    case Thrown => None
  }

  // ----- all of them -----

  datatype State = State(clients: map<nat, Client>, shared: Shared)

  /** `receivers` are the subscribers that a message reaches; a lossy channel leaves any of them out. */
  datatype Event =
    | Begin(id: nat, key: Key, lockEnabled: bool)
    | Next(id: nat, outcome: Outcome, receivers: set<nat>)
    | Crash(id: nat)
    | ExpireLock(key: Key)
    | ExpireData(key: Key)

  const EMPTY := State(map[], Shared(map[], map[], {}))

  function Listeners(clients: map<nat, Client>, key: Key): set<nat> {
    set i | i in clients && clients[i].key == key && clients[i].pc == Subscribed
  }

  function Deliver(clients: map<nat, Client>, receivers: set<nat>, message: Option<Message>): map<nat, Client> {
    map i | i in clients :: if i in receivers && message.Some? then clients[i].(inbox := message) else clients[i]
  }

  /** The client after its own step; a new subscription starts with an empty inbox. */
  function Moved(c: Client, e: Effect): Client {
    c.(pc := e.pc, executions := c.executions + (if e.executed then 1 else 0),
       inbox := if e.pc == Subscribed then None else c.inbox, released := c.released || e.deleted)
  }

  function Step(s: State, e: Event): Option<State> {
    match e
    case Begin(id, key, lockEnabled) =>
      if id in s.clients then None
      else Some(s.(clients := s.clients[id := Client(key, lockEnabled, FirstGet, None, 0, false)]))
    case Next(id, outcome, receivers) =>
      if id !in s.clients then None
      else
        var c := s.clients[id];
        var effect := Act(id, c, s.shared, outcome);
        if effect.None? || !(receivers <= Listeners(s.clients, c.key)) then None
        else
          Some(State(Deliver(s.clients[id := Moved(c, effect.value)], receivers, effect.value.message),
                effect.value.shared))
    case Crash(id) =>
      if id !in s.clients || s.clients[id].pc.Returned? then None
      else Some(s.(clients := s.clients[id := s.clients[id].(pc := Thrown)]))
    case ExpireLock(key) => Some(s.(shared := Unlock(s.shared, key)))
    case ExpireData(key) => Some(s.(shared := s.shared.(data := s.shared.data - {key})))
  }

  function Steps(s: State, events: seq<Event>): Option<State>
    decreases |events|
  {
    if events == [] then Some(s)
    else if Step(s, events[0]).None? then None
    else Steps(Step(s, events[0]).value, events[1..])
  }

  // ----- where values come from -----

  function Carried(pc: Pc): Option<Value> {
    match pc
    case PlainSet(v) => Some(v)
    case SetData(v) => Some(v)
    case Publish(v) => Some(v)
    case ReleaseGet(v) => Some(v)
    case ReleaseDel(v) => Some(v)
    case Returned(v) => Some(v)
    case _ => None
  }

  /** A `get` that may still execute its call. */
  predicate BeforeExecution(pc: Pc) {
    pc in {FirstGet, PlainExecute, LoopGet, AcquireLock, Execute, Subscribed, CheckTimeOut}
  }

  predicate ClientSafe(c: Client, produced: set<(Key, Value)>) {
    && (Carried(c.pc).Some? ==> (c.key, Carried(c.pc).value) in produced)
    && (c.inbox.Some? && c.inbox.value.Success? ==> (c.key, c.inbox.value.data) in produced)
    && c.executions <= 1
    && (BeforeExecution(c.pc) ==> c.executions == 0)
  }

  predicate DataSafe(sh: Shared) {
    forall k :: k in sh.data ==> (k, sh.data[k]) in sh.produced
  }

  predicate Safe(s: State) {
    DataSafe(s.shared) && forall i :: i in s.clients ==> ClientSafe(s.clients[i], s.shared.produced)
  }

  lemma {:induction false} ActKeepsData(id: nat, c: Client, sh: Shared, o: Outcome)
    requires ClientSafe(c, sh.produced) && DataSafe(sh) && Act(id, c, sh, o).Some?
    ensures var e := Act(id, c, sh, o).value;
            && sh.produced <= e.shared.produced
            && DataSafe(e.shared)
            && (e.message.Some? && e.message.value.Success? ==> (c.key, e.message.value.data) in e.shared.produced)
  {
  }

  lemma {:induction false} ActCarries(id: nat, c: Client, sh: Shared, o: Outcome)
    requires ClientSafe(c, sh.produced) && DataSafe(sh) && Act(id, c, sh, o).Some?
    ensures var e := Act(id, c, sh, o).value;
            && (Carried(e.pc).Some? ==> (c.key, Carried(e.pc).value) in e.shared.produced)
            && (e.executed ==> BeforeExecution(c.pc))
            && (BeforeExecution(e.pc) ==> BeforeExecution(c.pc) && !e.executed)
  {
  }

  lemma {:induction false} ActIsSafe(id: nat, c: Client, sh: Shared, o: Outcome)
    requires ClientSafe(c, sh.produced) && DataSafe(sh) && Act(id, c, sh, o).Some?
    ensures var e := Act(id, c, sh, o).value;
            && sh.produced <= e.shared.produced
            && DataSafe(e.shared)
            && ClientSafe(Moved(c, e), e.shared.produced)
            && (e.message.Some? && e.message.value.Success? ==> (c.key, e.message.value.data) in e.shared.produced)
  {
    ActKeepsData(id, c, sh, o);
    ActCarries(id, c, sh, o);
  }

  lemma {:induction false} NextKeepsSafe(s: State, id: nat, o: Outcome, receivers: set<nat>)
    requires Safe(s) && Step(s, Next(id, o, receivers)).Some?
    ensures Safe(Step(s, Next(id, o, receivers)).value)
  {
    var c := s.clients[id];
    ActIsSafe(id, c, s.shared, o);
    var e := Act(id, c, s.shared, o).value;
    var t := Step(s, Next(id, o, receivers)).value;
    forall i | i in t.clients ensures ClientSafe(t.clients[i], t.shared.produced) {
      if i != id {
        assert ClientSafe(s.clients[i], s.shared.produced);
      }
    }
  }

  lemma {:induction false} StepKeepsSafe(s: State, e: Event)
    requires Safe(s) && Step(s, e).Some?
    ensures Safe(Step(s, e).value)
  {
    match e
    case Next(id, o, receivers) => NextKeepsSafe(s, id, o, receivers);
    case _ =>
  }

  lemma {:induction false} RunKeepsSafe(s: State, events: seq<Event>)
    requires Safe(s) && Steps(s, events).Some?
    ensures Safe(Steps(s, events).value)
    decreases |events|
  {
    if events != [] {
      StepKeepsSafe(s, events[0]);
      RunKeepsSafe(Step(s, events[0]).value, events[1..]);
    }
  }

  /**
   Over every run, with any expiries, lost messages, failing commands and crashes: each value that a
   `get` returns was produced by an execution for that key, and each `get` executes at most once.
   */
  lemma {:induction false} ReturnedValuesWereProduced(events: seq<Event>, id: nat)
    requires Steps(EMPTY, events).Some? && id in Steps(EMPTY, events).value.clients
    ensures var s := Steps(EMPTY, events).value; var c := s.clients[id];
            && (c.pc.Returned? ==> (c.key, c.pc.value) in s.shared.produced)
            && c.executions <= 1
  {
    RunKeepsSafe(EMPTY, events);
  }

  // ----- the lock -----

  /** From a successful SET NX to the end of the release. */
  predicate InCriticalSection(pc: Pc) {
    || pc == Execute
    || pc.SetData? || pc.Publish? || pc.ReleaseGet? || pc.ReleaseDel?
    || pc in {PublishError, ErrorReleaseGet, ErrorReleaseDel}
  }

  /** From a successful SET NX until the DEL of its own lock is applied, on both paths. */
  predicate MustHold(c: Client) {
    InCriticalSection(c.pc) && !c.released
  }

  /** No lock expires while its owner is still before the end of its release. */
  predicate Polite(s: State, e: Event) {
    e.ExpireLock? && e.key in s.shared.locks && s.shared.locks[e.key] in s.clients ==>
      !InCriticalSection(s.clients[s.shared.locks[e.key]].pc)
  }

  predicate PoliteRun(s: State, events: seq<Event>)
    requires Steps(s, events).Some?
    decreases |events|
  {
    events != [] ==> Polite(s, events[0]) && PoliteRun(Step(s, events[0]).value, events[1..])
  }

  predicate Holds(sh: Shared, key: Key, id: nat) {
    key in sh.locks && sh.locks[key] == id
  }

  /** A `get` whose lock is deleted never holds it again, and does not delete another one. */
  predicate Done(c: Client, sh: Shared, id: nat) {
    && !Holds(sh, c.key, id)
    && (c.pc in {PublishError, ErrorReleaseGet, Thrown} || c.pc.Returned?)
  }

  predicate Locked(s: State) {
    && (forall i :: i in s.clients && MustHold(s.clients[i]) ==> Holds(s.shared, s.clients[i].key, i))
    && (forall i :: i in s.clients && s.clients[i].released ==> Done(s.clients[i], s.shared, i))
    && forall k :: k in s.shared.locks ==> s.shared.locks[k] in s.clients && s.clients[s.shared.locks[k]].key == k
  }

  /** What one step of a `get` does to the locks: it takes a free one, drops its own, or nothing. */
  lemma {:induction false} ActOnLocks(id: nat, c: Client, sh: Shared, o: Outcome)
    requires Act(id, c, sh, o).Some?
    requires MustHold(c) ==> Holds(sh, c.key, id)
    requires c.released ==> Done(c, sh, id)
    ensures var e := Act(id, c, sh, o).value;
            && (MustHold(Moved(c, e)) ==> Holds(e.shared, c.key, id))
            && (Moved(c, e).released ==> Done(Moved(c, e), e.shared, id))
            && (e.shared.locks == sh.locks
                || (c.key !in sh.locks && e.shared.locks == sh.locks[c.key := id])
                || (Holds(sh, c.key, id) && e.shared.locks == sh.locks - {c.key}))
  {
  }

  lemma {:induction false} NextKeepsLocked(s: State, id: nat, o: Outcome, receivers: set<nat>)
    requires Locked(s) && Step(s, Next(id, o, receivers)).Some?
    ensures Locked(Step(s, Next(id, o, receivers)).value)
  {
    var c := s.clients[id];
    ActOnLocks(id, c, s.shared, o);
    hide Act;
    var t := Step(s, Next(id, o, receivers)).value;
    forall i | i in t.clients
      ensures MustHold(t.clients[i]) ==> Holds(t.shared, t.clients[i].key, i)
      ensures t.clients[i].released ==> Done(t.clients[i], t.shared, i)
    {
      if i != id {
        assert t.clients[i] == s.clients[i].(inbox := t.clients[i].inbox);
        assert MustHold(s.clients[i]) ==> Holds(s.shared, s.clients[i].key, i);
        assert s.clients[i].released ==> Done(s.clients[i], s.shared, i);
      }
    }
    forall k | k in t.shared.locks
      ensures t.shared.locks[k] in t.clients && t.clients[t.shared.locks[k]].key == k
    {
      if k in s.shared.locks {
        assert s.clients[s.shared.locks[k]].key == k;
      }
    }
  }

  lemma {:induction false} StepKeepsLocked(s: State, e: Event)
    requires Locked(s) && Step(s, e).Some? && Polite(s, e)
    ensures Locked(Step(s, e).value)
  {
    match e
    case Next(id, o, receivers) => NextKeepsLocked(s, id, o, receivers);
    case _ =>
  }

  lemma {:induction false} RunKeepsLocked(s: State, events: seq<Event>)
    requires Locked(s) && Steps(s, events).Some? && PoliteRun(s, events)
    ensures Locked(Steps(s, events).value)
    decreases |events|
  {
    if events != [] {
      StepKeepsLocked(s, events[0]);
      RunKeepsLocked(Step(s, events[0]).value, events[1..]);
    }
  }

  /**
   In every run in which no lock expires before its owner's release completes, at most one `get` per key
   is between acquiring the lock and the DEL that releases it, on the success and on the error path, and a
   DEL deletes only its caller's own lock.
   */
  lemma {:induction false} MutualExclusion(events: seq<Event>, i: nat, j: nat)
    requires Steps(EMPTY, events).Some? && PoliteRun(EMPTY, events)
    requires var s := Steps(EMPTY, events).value;
             i in s.clients && j in s.clients && s.clients[i].key == s.clients[j].key
    ensures var s := Steps(EMPTY, events).value;
            && (MustHold(s.clients[i]) && MustHold(s.clients[j]) ==> i == j)
            && (s.clients[i].pc == Execute && s.clients[j].pc == Execute ==> i == j)
            && (s.clients[i].pc.ReleaseDel? || s.clients[i].pc.ErrorReleaseDel? ==>
                  Holds(s.shared, s.clients[i].key, i))
  {
    RunKeepsLocked(EMPTY, events);
  }

  // ----- what the assumption is for -----

  lemma {:induction false} StepsSnoc(s: State, events: seq<Event>, e: Event)
    requires Steps(s, events).Some?
    ensures Steps(s, events + [e]) == Step(Steps(s, events).value, e)
    decreases |events|
  {
    if events == [] {
      Seqs.Single(e);
      assert events + [e] == [e];
    } else {
      StepsSnoc(Step(s, events[0]).value, events[1..], e);
      Seqs.TailOfConcat(events, [e]);
    }
  }

  /** The state after a step of `id` that publishes nothing, or whose message nobody receives. */
  function After(s: State, id: nat, o: Outcome): State
    requires id in s.clients && Act(id, s.clients[id], s.shared, o).Some?
  {
    var e := Act(id, s.clients[id], s.shared, o).value;
    State(s.clients[id := Moved(s.clients[id], e)], e.shared)
  }

  lemma {:induction false} Go(from: State, events: seq<Event>, s: State, id: nat, o: Outcome)
    requires Steps(from, events) == Some(s)
    requires id in s.clients && Act(id, s.clients[id], s.shared, o).Some?
    ensures Steps(from, events + [Next(id, o, {})]) == Some(After(s, id, o))
  {
    StepsSnoc(from, events, Next(id, o, {}));
    var clients := s.clients[id := Moved(s.clients[id], Act(id, s.clients[id], s.shared, o).value)];
    assert Deliver(clients, {}, Act(id, s.clients[id], s.shared, o).value.message) == clients;
  }

  const SOME_KEY: Key := "k"

  predicate NoExpiry(events: seq<Event>) {
    forall i :: 0 <= i < |events| ==> !events[i].ExpireLock? && !events[i].ExpireData?
  }

  /** A `get` that both GETs have answered with nothing. */
  function Missed(events: seq<Event>, id: nat, key: Key): seq<Event> {
    events + [Begin(id, key, true)] + [Next(id, Fine, {})] + [Next(id, Fine, {})]
  }

  lemma {:induction false} MissBoth(events: seq<Event>, s: State, id: nat, key: Key)
    requires Steps(EMPTY, events) == Some(s) && id !in s.clients && key !in s.shared.data
    ensures Steps(EMPTY, Missed(events, id, key))
         == Some(State(s.clients[id := Client(key, true, AcquireLock, None, 0, false)], s.shared))
  {
    StepsSnoc(EMPTY, events, Begin(id, key, true));
    var s1 := State(s.clients[id := Client(key, true, FirstGet, None, 0, false)], s.shared);
    var events1 := events + [Begin(id, key, true)];
    Go(EMPTY, events1, s1, id, Fine);
    var s2 := After(s1, id, Fine);
    Go(EMPTY, events1 + [Next(id, Fine, {})], s2, id, Fine);
    var s3 := After(s2, id, Fine);
    assert s3.clients == s.clients[id := Client(key, true, AcquireLock, None, 0, false)];
  }

  /** The client of an undisturbed execution after `k` of its five steps. */
  function AtStage(c: Client, k: nat, value: Value): Client {
    c.(pc := Stage(k, value), executions := c.executions + (if k > 0 then 1 else 0), released := c.released || k >= 5)
  }

  /** The shared state then. */
  predicate SharedAt(before: Shared, now: Shared, key: Key, k: nat, value: Value) {
    && now.data == (if k < 2 then before.data else before.data[key := value])
    && now.locks == (if k < 5 then before.locks else before.locks - {key})
  }

  /** From the acquired lock to the end of the release, with nothing failing; `waiters` get the message. */
  lemma {:induction false} Finish(from: State, events: seq<Event>, s: State, id: nat, waiters: set<nat>, value: Value)
    returns (more: seq<Event>, t: State)
    requires Steps(from, events) == Some(s)
    requires id in s.clients && s.clients[id].pc == Execute && Holds(s.shared, s.clients[id].key, id)
    requires waiters <= Listeners(s.clients, s.clients[id].key)
    ensures Steps(from, events + more) == Some(t) && NoExpiry(more)
    ensures t.clients == Told(s.clients, waiters, value)[id := AtStage(s.clients[id], 5, value)]
    ensures SharedAt(s.shared, t.shared, s.clients[id].key, 5, value)
  {
    hide Step, Steps, Act, SharedAt, Told, AtStage;
    var c := s.clients[id];
    more, t := [], s;
    assert events + more == events;
    Start(s, id, value);
    for k := 0 to 5
      invariant Steps(from, events + more) == Some(t) && NoExpiry(more)
      invariant t.clients == (if k < 3 then s.clients else Told(s.clients, waiters, value))[id := AtStage(c, k, value)]
      invariant SharedAt(s.shared, t.shared, c.key, k, value)
    {
      var o := if k == 0 then Executes(value) else Fine;
      var e := Next(id, o, if k == 2 then waiters else {});
      WaitersStay(s.clients, id, c.key, k, waiters, value);
      NextStage(s.shared, t, id, c, k, waiters, value);
      StepsSnoc(from, events + more, e);
      Seqs.Assoc(events, more, [e]);
      t := Step(t, e).value;
      more := more + [e];
    }
  }

  lemma {:induction false} Start(s: State, id: nat, value: Value)
    requires id in s.clients && s.clients[id].pc == Execute
    ensures s.clients == s.clients[id := AtStage(s.clients[id], 0, value)]
    ensures SharedAt(s.shared, s.shared, s.clients[id].key, 0, value)
  {
  }

  lemma {:induction false} WaitersStay(clients: map<nat, Client>, id: nat, key: Key, k: nat, waiters: set<nat>,
        value: Value)
    requires id in clients && clients[id].pc == Execute && clients[id].key == key
    requires waiters <= Listeners(clients, key)
    ensures var now := clients[id := AtStage(clients[id], k, value)];
            && waiters <= Listeners(now, key)
            && Told(now, waiters, value)[id := AtStage(clients[id], k + 1, value)]
               == Told(clients, waiters, value)[id := AtStage(clients[id], k + 1, value)]
  {
  }

  function Told(clients: map<nat, Client>, waiters: set<nat>, value: Value): map<nat, Client> {
    Deliver(clients, waiters, Some(Success(value)))
  }

  lemma {:induction false} NextStage(before: Shared, s: State, id: nat, c: Client, k: nat, waiters: set<nat>,
        value: Value)
    requires k < 5 && id in s.clients && Holds(before, c.key, id)
    requires s.clients[id] == AtStage(c, k, value) && SharedAt(before, s.shared, c.key, k, value)
    requires k == 2 ==> waiters <= Listeners(s.clients, c.key)
    ensures var u := Step(s, Next(id, if k == 0 then Executes(value) else Fine, if k == 2 then waiters else {}));
            && u.Some?
            && u.value.clients == (if k == 2 then Told(s.clients, waiters, value) else s.clients)
                                  [id := AtStage(c, k + 1, value)]
            && SharedAt(before, u.value.shared, c.key, k + 1, value)
  {
  }

  function Stage(k: nat, value: Value): Pc {
    if k == 0 then Execute else if k == 1 then SetData(value) else if k == 2 then Publish(value)
    else if k == 3 then ReleaseGet(value) else if k == 4 then ReleaseDel(value) else Returned(value)
  }

  /**
   What the protocol is for. After any run, a `get` for a key without data and lock, if nothing fails,
   executes its call once, returns the result, leaves it as the data and the lock free.
   */
  lemma {:induction false} UndisturbedGet(events: seq<Event>, id: nat, key: Key, value: Value)
    returns (more: seq<Event>)
    requires Steps(EMPTY, events).Some?
    requires var s := Steps(EMPTY, events).value; id !in s.clients && key !in s.shared.data && key !in s.shared.locks
    ensures Steps(EMPTY, more).Some?
    ensures var s, t := Steps(EMPTY, events).value, Steps(EMPTY, more).value;
            && id in t.clients && t.clients[id] == Client(key, true, Returned(value), None, 1, true)
            && t.shared.data == s.shared.data[key := value] && t.shared.locks == s.shared.locks
  {
    var s := Steps(EMPTY, events).value;
    MissBoth(events, s, id, key);
    more := Missed(events, id, key);
    var t := Steps(EMPTY, more).value;
    Go(EMPTY, more, t, id, Fine);
    more, t := more + [Next(id, Fine, {})], After(t, id, Fine);
    var rest, u := Finish(EMPTY, more, t, id, {}, value);
    more := more + rest;
    assert u.shared.locks == s.shared.locks;
  }

  /**
   One execution serves everybody who waits: from any state in which a `get` holds the lock and is about
   to execute, with nothing failing and the message reaching every subscriber of the key, it executes
   once, and it and all of them return the same value, none of the others having executed anything.
   */
  lemma {:induction false} SharedFlight(s: State, id: nat, value: Value) returns (events: seq<Event>, t: State)
    requires id in s.clients && s.clients[id].pc == Execute && Holds(s.shared, s.clients[id].key, id)
    ensures Steps(s, events) == Some(t) && NoExpiry(events) && t.clients.Keys == s.clients.Keys
    ensures t.clients[id].pc == Returned(value) && t.clients[id].executions == s.clients[id].executions + 1
    ensures forall w :: w in Listeners(s.clients, s.clients[id].key) ==>
              t.clients[w].pc == Returned(value) && t.clients[w].executions == s.clients[w].executions
    ensures t.shared.data == s.shared.data[s.clients[id].key := value]
    ensures t.shared.locks == s.shared.locks - {s.clients[id].key}
  {
    var key := s.clients[id].key;
    var waiters := Listeners(s.clients, key);
    events, t := Finish(s, [], s, id, waiters, value);
    assert [] + events == events;
    events, t := WaitersReturn(s, events, t, waiters, value);
  }

  /** A subscriber with a message in its inbox takes it. */
  lemma {:induction false} WaitersReturn(from: State, before: seq<Event>, s: State, waiters: set<nat>, value: Value)
    returns (events: seq<Event>, t: State)
    requires Steps(from, before) == Some(s) && NoExpiry(before)
    requires forall w :: w in waiters ==>
               w in s.clients && s.clients[w].pc == Subscribed && s.clients[w].inbox == Some(Success(value))
    ensures Steps(from, events) == Some(t) && NoExpiry(events) && t.clients.Keys == s.clients.Keys
    ensures t.shared == s.shared
    ensures forall i :: i in s.clients ==>
              t.clients[i] == if i in waiters then s.clients[i].(pc := Returned(value)) else s.clients[i]
    decreases |waiters|
  {
    if waiters == {} {
      events, t := before, s;
    } else {
      var w :| w in waiters;
      Go(from, before, s, w, Fine);
      var next := After(s, w, Fine);
      assert next.clients == s.clients[w := s.clients[w].(pc := Returned(value))];
      events, t := WaitersReturn(from, before + [Next(w, Fine, {})], next, waiters - {w}, value);
    }
  }

  // ----- one `get` at a time -----

  /** A subscriber's message decides: a published value is returned, a published error thrown again. */
  lemma {:induction false} MessageDecides(s: State, id: nat)
    requires id in s.clients && s.clients[id].pc == Subscribed && s.clients[id].inbox.Some?
    ensures Step(s, Next(id, Fine, {})).Some?
    ensures var t := Step(s, Next(id, Fine, {})).value;
            && t.shared == s.shared && t.clients.Keys == s.clients.Keys
            && t.clients[id].executions == s.clients[id].executions
            && match s.clients[id].inbox.value
               case Success(value) => t.clients[id].pc == Returned(value)
               case Error(_) => t.clients[id].pc == Thrown
  {
  }

  /** A new `get` that finds data returns it at once, with a lock or without. */
  lemma {:induction false} HitReturns(s: State, id: nat, key: Key, lockEnabled: bool)
    requires id !in s.clients && key in s.shared.data
    ensures Steps(s, [Begin(id, key, lockEnabled), Next(id, Fine, {})])
         == Some(s.(clients := s.clients[id := Client(key, lockEnabled, Returned(s.shared.data[key]), None, 0, false)]))
  {
    var begun := Began(s, id, key, lockEnabled);
    Go(s, [Begin(id, key, lockEnabled)], begun, id, Fine);
    assert [Begin(id, key, lockEnabled)] + [Next(id, Fine, {})] == [Begin(id, key, lockEnabled), Next(id, Fine, {})];
    assert After(begun, id, Fine).clients
        == s.clients[id := Client(key, lockEnabled, Returned(s.shared.data[key]), None, 0, false)];
  }

  /** The state when a `get` has begun. */
  lemma {:induction false} Began(s: State, id: nat, key: Key, lockEnabled: bool) returns (t: State)
    requires id !in s.clients
    ensures Steps(s, [Begin(id, key, lockEnabled)]) == Some(t)
    ensures t == s.(clients := s.clients[id := Client(key, lockEnabled, FirstGet, None, 0, false)])
  {
    t := s.(clients := s.clients[id := Client(key, lockEnabled, FirstGet, None, 0, false)]);
    Seqs.Single(Begin(id, key, lockEnabled));
    assert Steps(t, []) == Some(t);
  }

  /** Without a lock a `get` that misses executes, stores the result and returns it, whoever holds the lock. */
  lemma {:induction false} PlainGet(s: State, id: nat, key: Key, value: Value) returns (events: seq<Event>)
    requires id !in s.clients && key !in s.shared.data
    ensures Steps(s, events).Some? && NoExpiry(events)
    ensures var t := Steps(s, events).value;
            && t.clients == s.clients[id := Client(key, false, Returned(value), None, 1, false)]
            && t.shared.data == s.shared.data[key := value] && t.shared.locks == s.shared.locks
  {
    var t := Began(s, id, key, false);
    events := [Begin(id, key, false)];
    Go(s, events, t, id, Fine);
    events, t := events + [Next(id, Fine, {})], After(t, id, Fine);
    assert t.clients[id] == Client(key, false, PlainExecute, None, 0, false);
    Go(s, events, t, id, Executes(value));
    events, t := events + [Next(id, Executes(value), {})], After(t, id, Executes(value));
    assert t.clients[id] == Client(key, false, PlainSet(value), None, 1, false);
    Go(s, events, t, id, Fine);
    events, t := events + [Next(id, Fine, {})], After(t, id, Fine);
    assert t.clients == s.clients[id := Client(key, false, Returned(value), None, 1, false)];
  }

  /** A new `get` that misses while the lock is held waits for the message, having changed nothing. */
  lemma {:induction false} LatecomerWaits(s: State, id: nat, key: Key) returns (events: seq<Event>)
    requires id !in s.clients && key !in s.shared.data && key in s.shared.locks
    ensures NoExpiry(events)
    ensures Steps(s, events)
         == Some(State(s.clients[id := Client(key, true, Subscribed, None, 0, false)], s.shared))
  {
    var t := Began(s, id, key, true);
    events := [Begin(id, key, true)];
    for k := 0 to 3
      invariant Steps(s, events) == Some(t) && NoExpiry(events) && t.shared == s.shared
      invariant var pc := [FirstGet, LoopGet, AcquireLock, Subscribed][k];
                t.clients == s.clients[id := Client(key, true, pc, None, 0, false)]
    {
      Go(s, events, t, id, Fine);
      events, t := events + [Next(id, Fine, {})], After(t, id, Fine);
    }
  }

  /** Whoever finds the lock taken subscribes, and hears only what is published from then on. */
  lemma {:induction false} Subscribes(s: State, id: nat)
    requires id in s.clients && s.clients[id].pc == AcquireLock && s.clients[id].key in s.shared.locks
    ensures Step(s, Next(id, Fine, {}))
         == Some(s.(clients := s.clients[id := s.clients[id].(pc := Subscribed, inbox := None)]))
  {
    Go(s, [], s, id, Fine);
    Seqs.Single(Next(id, Fine, {}));
    assert [] + [Next(id, Fine, {})] == [Next(id, Fine, {})];
    assert Steps(s, [Next(id, Fine, {})]) == Step(s, Next(id, Fine, {}));
  }

  /** A subscriber without a message looks at the data again after its time-out, unless it has polled too long. */
  lemma {:induction false} TimedOutWaiter(s: State, id: nat)
    requires id in s.clients && s.clients[id].pc == Subscribed
    ensures Steps(s, [Next(id, TimesOut, {}), Next(id, TimesOut, {})])
         == Some(s.(clients := s.clients[id := s.clients[id].(pc := Thrown)]))
    ensures var again := Steps(s, [Next(id, TimesOut, {}), Next(id, Fine, {})]);
            && again.Some? && again.value.shared == s.shared
            && again.value.clients == s.clients[id := s.clients[id].(pc := LoopGet)]
            && var t := After(again.value, id, Fine);
               t.shared == s.shared
               && t.clients[id].pc == if s.clients[id].key in s.shared.data
                                      then Returned(s.shared.data[s.clients[id].key]) else AcquireLock
  {
    assert Steps(s, []) == Some(s) && [] + [Next(id, TimesOut, {})] == [Next(id, TimesOut, {})];
    Go(s, [], s, id, TimesOut);
    var checking := After(s, id, TimesOut);
    Go(s, [Next(id, TimesOut, {})], checking, id, TimesOut);
    Go(s, [Next(id, TimesOut, {})], checking, id, Fine);
    assert [Next(id, TimesOut, {})] + [Next(id, TimesOut, {})] == [Next(id, TimesOut, {}), Next(id, TimesOut, {})];
    assert [Next(id, TimesOut, {})] + [Next(id, Fine, {})] == [Next(id, TimesOut, {}), Next(id, Fine, {})];
    assert After(checking, id, TimesOut).clients == s.clients[id := s.clients[id].(pc := Thrown)];
    assert After(checking, id, Fine).clients == s.clients[id := s.clients[id].(pc := LoopGet)];
  }

  /** A `get` whose lock has expired before the release leaves the locks alone, and still returns or throws. */
  lemma {:induction false} ReleaseWithoutLock(s: State, id: nat)
    requires id in s.clients && !Holds(s.shared, s.clients[id].key, id)
    ensures s.clients[id].pc.ReleaseGet? ==>
              Step(s, Next(id, Fine, {})).Some?
              && Step(s, Next(id, Fine, {})).value.shared == s.shared
              && Step(s, Next(id, Fine, {})).value.clients[id].pc == Returned(s.clients[id].pc.value)
    ensures s.clients[id].pc == ErrorReleaseGet ==>
              Step(s, Next(id, Fine, {})).Some?
              && Step(s, Next(id, Fine, {})).value.shared == s.shared
              && Step(s, Next(id, Fine, {})).value.clients[id].pc == Thrown
  {
  }

  // ----- failures -----

  /**
   From any state in which a `get` holds the lock and is about to execute, if the call fails and nothing
   else does: the lock is deleted, the data stays, and the `get` throws. Unless the error is one of the
   connection to the node, it is published, and every subscriber of the key throws, without executing.
   */
  lemma {:induction false} FailedFlight(s: State, id: nat, quiet: bool) returns (events: seq<Event>, t: State)
    requires id in s.clients && s.clients[id].pc == Execute && Holds(s.shared, s.clients[id].key, id)
    ensures Steps(s, events) == Some(t) && NoExpiry(events) && t.clients.Keys == s.clients.Keys
    ensures t.clients[id].pc == Thrown && t.clients[id].executions == s.clients[id].executions + 1
    ensures forall w :: w in Listeners(s.clients, s.clients[id].key) ==>
              t.clients[w] == if quiet then s.clients[w]
                              else s.clients[w].(pc := Thrown, inbox := t.clients[w].inbox)
    ensures t.shared.data == s.shared.data && t.shared.produced == s.shared.produced
    ensures t.shared.locks == s.shared.locks - {s.clients[id].key}
  {
    assert Steps(s, []) == Some(s);
    Go(s, [], s, id, ExecutionFails(quiet));
    events, t := [] + [Next(id, ExecutionFails(quiet), {})], After(s, id, ExecutionFails(quiet));
    var c := s.clients[id];
    assert t == State(s.clients[id := c.(pc := Caught(quiet), executions := c.executions + 1)], s.shared);
    hide Step, Steps, Act, After;
    if quiet {
      events, t := ErrorRelease(s, events, t, id);
    } else {
      events, t := PublishAndThrow(s, events, t, id);
    }
  }

  /** The error path of an error that is published, with all subscribers. */
  lemma {:induction false} PublishAndThrow(from: State, before: seq<Event>, s: State, id: nat)
    returns (events: seq<Event>, t: State)
    requires Steps(from, before) == Some(s) && NoExpiry(before)
    requires id in s.clients && s.clients[id].pc == PublishError && Holds(s.shared, s.clients[id].key, id)
    ensures Steps(from, events) == Some(t) && NoExpiry(events) && t.clients.Keys == s.clients.Keys
    ensures t.shared == Unlock(s.shared, s.clients[id].key)
    ensures t.clients[id] == s.clients[id].(pc := Thrown, released := true)
    ensures forall w :: w in Listeners(s.clients, s.clients[id].key) ==>
              t.clients[w] == s.clients[w].(pc := Thrown, inbox := t.clients[w].inbox)
  {
    hide Step, Steps, Act, After;
    var waiters := Listeners(s.clients, s.clients[id].key);
    events, t := PublishFailure(from, before, s, id, waiters);
    events, t := ErrorRelease(from, events, t, id);
    events, t := WaitersThrow(from, events, t, waiters);
  }

  /** The release of the error path, by the lock's owner. */
  lemma {:induction false} ErrorRelease(from: State, before: seq<Event>, s: State, id: nat)
    returns (events: seq<Event>, t: State)
    requires Steps(from, before) == Some(s) && NoExpiry(before)
    requires id in s.clients && s.clients[id].pc == ErrorReleaseGet && Holds(s.shared, s.clients[id].key, id)
    ensures Steps(from, events) == Some(t) && NoExpiry(events)
    ensures t.shared == Unlock(s.shared, s.clients[id].key)
    ensures t.clients == s.clients[id := s.clients[id].(pc := Thrown, released := true)]
  {
    Go(from, before, s, id, Fine);
    var deleting := After(s, id, Fine);
    Go(from, before + [Next(id, Fine, {})], deleting, id, Fine);
    events, t := before + [Next(id, Fine, {})] + [Next(id, Fine, {})], After(deleting, id, Fine);
    assert t.clients == s.clients[id := s.clients[id].(pc := Thrown, released := true)];
  }

  lemma {:induction false} PublishFailure(from: State, before: seq<Event>, s: State, id: nat, waiters: set<nat>)
    returns (events: seq<Event>, t: State)
    requires Steps(from, before) == Some(s) && NoExpiry(before)
    requires id in s.clients && s.clients[id].pc == PublishError && waiters <= Listeners(s.clients, s.clients[id].key)
    ensures Steps(from, events) == Some(t) && NoExpiry(events)
    ensures t.shared == s.shared
    ensures t.clients == Deliver(s.clients, waiters, Some(Error("error")))
                         [id := s.clients[id].(pc := ErrorReleaseGet)]
  {
    var e := Next(id, Fine, waiters);
    StepsSnoc(from, before, e);
    events, t := before + [e], Step(s, e).value;
    assert id !in waiters;
  }

  /** Subscribers with an error in their inbox throw it. */
  lemma {:induction false} WaitersThrow(from: State, before: seq<Event>, s: State, waiters: set<nat>)
    returns (events: seq<Event>, t: State)
    requires Steps(from, before) == Some(s) && NoExpiry(before)
    requires forall w :: w in waiters ==>
               w in s.clients && s.clients[w].pc == Subscribed && s.clients[w].inbox == Some(Error("error"))
    ensures Steps(from, events) == Some(t) && NoExpiry(events) && t.clients.Keys == s.clients.Keys
    ensures t.shared == s.shared
    ensures forall i :: i in s.clients ==>
              t.clients[i] == if i in waiters then s.clients[i].(pc := Thrown) else s.clients[i]
    decreases |waiters|
  {
    if waiters == {} {
      events, t := before, s;
    } else {
      var w :| w in waiters;
      Go(from, before, s, w, Fine);
      var next := After(s, w, Fine);
      assert next.clients == s.clients[w := s.clients[w].(pc := Thrown)];
      events, t := WaitersThrow(from, before + [Next(w, Fine, {})], next, waiters - {w});
    }
  }

  /** Where a failure leads: into the `catch` block from the success path of the lock's holder, else out of `get`. */
  lemma {:induction false} FailureIsRaised(id: nat, c: Client, sh: Shared, o: Outcome)
    requires Act(id, c, sh, o).Some? && (o.RedisFails? || o.ExecutionFails?)
    ensures var holding := c.pc == Execute || c.pc.SetData? || c.pc.Publish? || c.pc.ReleaseGet? || c.pc.ReleaseDel?;
            && Act(id, c, sh, o).value.executed == o.ExecutionFails?
            && Act(id, c, sh, o).value.pc
               == if !holding then Thrown else if o.quiet then ErrorReleaseGet else PublishError
  {
  }

  /** A failing command has done nothing, or what it would have done. */
  lemma {:induction false} FailedCommand(id: nat, c: Client, sh: Shared, applied: bool, quiet: bool)
    requires Act(id, c, sh, RedisFails(applied, quiet)).Some?
    ensures var e := Act(id, c, sh, RedisFails(applied, quiet)).value;
            && !e.executed
            && (!applied ==> e.shared == sh && e.message.None? && !e.deleted)
            && (applied && Act(id, c, sh, Fine).Some? ==>
                  var fine := Act(id, c, sh, Fine).value;
                  e.shared == fine.shared && e.message == fine.message && e.deleted == fine.deleted)
  {
  }

  /** What can happen at each step: every Redis command may fail, and so may every call. */
  lemma {:induction false} Possible(id: nat, c: Client, sh: Shared, o: Outcome)
    ensures Act(id, c, sh, o).Some? <==>
              match o
              case Executes(_) => c.pc in {PlainExecute, Execute}
              case ExecutionFails(_) => c.pc in {PlainExecute, Execute}
              case TimesOut => c.pc in {Subscribed, CheckTimeOut}
              case Fine => c.pc !in {PlainExecute, Execute, Thrown} && !c.pc.Returned?
                           && (c.pc == Subscribed ==> c.inbox.Some?)
              case RedisFails(_, _) => c.pc !in {PlainExecute, Execute, CheckTimeOut, Thrown} && !c.pc.Returned?
  {
  }

  /** On the way out. */
  predicate Doomed(pc: Pc) {
    pc in {PublishError, ErrorReleaseGet, ErrorReleaseDel, Thrown}
  }

  lemma {:induction false} DoomedStep(s: State, e: Event, id: nat)
    requires id in s.clients && Doomed(s.clients[id].pc) && Step(s, e).Some?
    ensures var t := Step(s, e).value;
            id in t.clients && Doomed(t.clients[id].pc) && t.clients[id].executions == s.clients[id].executions
  {
  }

  lemma {:induction false} DoomedRun(s: State, events: seq<Event>, id: nat)
    requires id in s.clients && Doomed(s.clients[id].pc) && Steps(s, events).Some?
    ensures var t := Steps(s, events).value;
            id in t.clients && Doomed(t.clients[id].pc) && t.clients[id].executions == s.clients[id].executions
    decreases |events|
  {
    if events != [] {
      DoomedStep(s, events[0], id);
      DoomedRun(Step(s, events[0]).value, events[1..], id);
    }
  }

  /** A `get` with a failed command or call never returns a value, and never executes again, in any run. */
  lemma {:induction false} FailuresThrow(s: State, id: nat, o: Outcome, receivers: set<nat>, rest: seq<Event>)
    requires o.RedisFails? || o.ExecutionFails?
    requires Step(s, Next(id, o, receivers)).Some? && Steps(Step(s, Next(id, o, receivers)).value, rest).Some?
    ensures id in s.clients
    ensures var t := Steps(Step(s, Next(id, o, receivers)).value, rest).value;
            && id in t.clients && !t.clients[id].pc.Returned?
            && t.clients[id].executions == s.clients[id].executions + (if o.ExecutionFails? then 1 else 0)
  {
    FailureIsRaised(id, s.clients[id], s.shared, o);
    hide Act;
    DoomedRun(Step(s, Next(id, o, receivers)).value, rest, id);
  }

  // ----- when the call runs again -----

  /** Past the last look at the data; what comes next is the lock, or the call. */
  predicate PastTheTest(pc: Pc) {
    pc in {PlainExecute, AcquireLock, Execute}
  }

  /** A `get` for `key` that has executed `n` times and will look at the data before it executes. */
  predicate Served(s: State, id: nat, key: Key, n: nat) {
    && key in s.shared.data
    && (id in s.clients && s.clients[id].key == key ==>
          !PastTheTest(s.clients[id].pc) && s.clients[id].executions == n)
  }

  function Executions(s: State, id: nat): nat {
    if id in s.clients then s.clients[id].executions else 0
  }

  lemma {:induction false} DataStays(id: nat, c: Client, sh: Shared, o: Outcome)
    requires Act(id, c, sh, o).Some?
    ensures sh.data.Keys <= Act(id, c, sh, o).value.shared.data.Keys
  {
  }

  lemma {:induction false} LooksFirst(id: nat, c: Client, sh: Shared, o: Outcome)
    requires Act(id, c, sh, o).Some? && c.key in sh.data && !PastTheTest(c.pc)
    ensures !PastTheTest(Act(id, c, sh, o).value.pc) && !Act(id, c, sh, o).value.executed
  {
  }

  lemma {:induction false} ServedStep(s: State, e: Event, id: nat, key: Key, n: nat)
    requires Served(s, id, key, n) && (id !in s.clients ==> n == 0)
    requires Step(s, e).Some? && e != ExpireData(key)
    ensures Served(Step(s, e).value, id, key, n)
  {
    if e.Next? {
      var c := s.clients[e.id];
      DataStays(e.id, c, s.shared, e.outcome);
      if e.id == id && c.key == key {
        LooksFirst(id, c, s.shared, e.outcome);
      }
    }
    hide Act;
  }

  lemma {:induction false} ServedRun(s: State, events: seq<Event>, id: nat, key: Key, n: nat)
    requires Served(s, id, key, n) && (id !in s.clients ==> n == 0)
    requires Steps(s, events).Some? && ExpireData(key) !in events
    ensures Served(Steps(s, events).value, id, key, n)
    decreases |events|
  {
    if events != [] {
      ServedStep(s, events[0], id, key, n);
      ServedRun(Step(s, events[0]).value, events[1..], id, key, n);
    }
  }

  /**
   Once the data of a key is there, and as long as it does not expire, no `get` for that key executes
   that has not begun yet or that is not past its last look at the data, whatever else happens: locks
   may expire, messages get lost, commands fail, clients crash.
   */
  lemma {:induction false} ServedNeverExecutes(s: State, events: seq<Event>, id: nat, key: Key)
    requires key in s.shared.data && Steps(s, events).Some? && ExpireData(key) !in events
    requires id in s.clients && s.clients[id].key == key ==> !PastTheTest(s.clients[id].pc)
    ensures var t := Steps(s, events).value;
            id in t.clients && t.clients[id].key == key ==> t.clients[id].executions == Executions(s, id)
  {
    ServedRun(s, events, id, key, Executions(s, id));
  }

  /** The data of the key stays, and its lock too unless locks may expire. */
  predicate Keeps(events: seq<Event>, key: Key, lockExpires: bool) {
    ExpireData(key) !in events && (ExpireLock(key) in events ==> lockExpires)
  }

  /** A continuation in which the `get` executes although the data is there. */
  predicate ExecutesIn(s: State, id: nat, lockExpires: bool, events: seq<Event>)
    requires id in s.clients
  {
    && Keeps(events, s.clients[id].key, lockExpires)
    && Steps(s, events).Some?
    && Executions(Steps(s, events).value, id) > s.clients[id].executions
  }

  ghost predicate CanExecute(s: State, id: nat, lockExpires: bool)
    requires id in s.clients
  {
    exists events :: ExecutesIn(s, id, lockExpires, events)
  }

  /** Some `get` for the key is going to delete the lock: its owner, or one between GET and DEL. */
  predicate Deletes(s: State, j: nat, key: Key) {
    && j in s.clients && s.clients[j].key == key
    && (s.clients[j].pc.ReleaseDel? || s.clients[j].pc == ErrorReleaseDel
        || (Holds(s.shared, key, j) && InCriticalSection(s.clients[j].pc)))
  }

  /** The lock stands, and only its expiry can remove it. */
  predicate Abandoned(s: State, key: Key) {
    key in s.shared.locks && forall j :: j in s.clients ==> !Deletes(s, j, key)
  }

  predicate MayOwn(pc: Pc) {
    InCriticalSection(pc) || pc == Thrown
  }

  /** The owner of a lock is a `get` for that key that has not finished its release, or that has failed. */
  predicate Owned(s: State) {
    forall k :: k in s.shared.locks ==>
      var owner := s.shared.locks[k];
      owner in s.clients && s.clients[owner].key == k
      && MayOwn(s.clients[owner].pc)
  }

  lemma {:induction false} ActOwned(id: nat, c: Client, sh: Shared, o: Outcome)
    requires Act(id, c, sh, o).Some? && (Holds(sh, c.key, id) ==> MayOwn(c.pc))
    ensures var e := Act(id, c, sh, o).value;
            && (Holds(e.shared, c.key, id) ==> MayOwn(e.pc))
            && (e.shared.locks == sh.locks || e.shared.locks == sh.locks[c.key := id]
                || e.shared.locks == sh.locks - {c.key})
  {
  }

  lemma {:induction false} NextKeepsOwned(s: State, id: nat, o: Outcome, receivers: set<nat>)
    requires Owned(s) && Step(s, Next(id, o, receivers)).Some?
    ensures Owned(Step(s, Next(id, o, receivers)).value)
  {
    var t := Step(s, Next(id, o, receivers)).value;
    ActOwned(id, s.clients[id], s.shared, o);
    hide Act, MayOwn;
    forall k | k in t.shared.locks
      ensures t.shared.locks[k] in t.clients && t.clients[t.shared.locks[k]].key == k
      ensures MayOwn(t.clients[t.shared.locks[k]].pc)
    {
      assert k in s.shared.locks ==> s.clients[s.shared.locks[k]].key == k;
    }
  }

  lemma {:induction false} StepKeepsOwned(s: State, e: Event)
    requires Owned(s) && Step(s, e).Some?
    ensures Owned(Step(s, e).value)
  {
    match e
    case Next(id, o, receivers) => NextKeepsOwned(s, id, o, receivers);
    case _ =>
  }

  lemma {:induction false} RunKeepsOwned(s: State, events: seq<Event>)
    requires Owned(s) && Steps(s, events).Some?
    ensures Owned(Steps(s, events).value)
    decreases |events|
  {
    if events != [] {
      StepKeepsOwned(s, events[0]);
      RunKeepsOwned(Step(s, events[0]).value, events[1..]);
    }
  }

  /** The step of a client of the key, while its lock is abandoned. */
  lemma {:induction false} ActWhileAbandoned(s: State, j: nat, key: Key, o: Outcome)
    requires Owned(s) && Abandoned(s, key)
    requires j in s.clients && Act(j, s.clients[j], s.shared, o).Some?
    ensures var e := Act(j, s.clients[j], s.shared, o).value;
            && key in e.shared.locks && e.shared.locks[key] == s.shared.locks[key]
            && (s.clients[j].key == key ==> !e.pc.ReleaseDel? && e.pc != ErrorReleaseDel)
            && (s.clients[j].key == key && s.clients[j].pc !in {PlainExecute, Execute} && key in s.shared.data ==>
                  e.pc !in {PlainExecute, Execute} && !e.executed)
  {
    assert !Deletes(s, j, key) && !Deletes(s, s.shared.locks[key], key);
  }

  lemma {:induction false} StepWhileAbandoned(s: State, e: Event, key: Key)
    requires Owned(s) && Abandoned(s, key) && Step(s, e).Some? && e != ExpireLock(key)
    ensures Abandoned(Step(s, e).value, key)
  {
    var t := Step(s, e).value;
    var owner := s.shared.locks[key];
    assert !Deletes(s, owner, key);
    if e.Next? {
      ActWhileAbandoned(s, e.id, key, e.outcome);
      assert Act(owner, s.clients[owner], s.shared, e.outcome).None?;
    }
    hide Act;
    forall j | j in t.clients ensures !Deletes(t, j, key) {
      assert j in s.clients ==> !Deletes(s, j, key);
    }
  }

  /** An abandoned lock keeps a `get` that needs it from executing. */
  predicate Waits(s: State, id: nat, key: Key, n: nat) {
    && Owned(s) && key in s.shared.data && Abandoned(s, key)
    && id in s.clients && s.clients[id].key == key
    && s.clients[id].pc !in {PlainExecute, Execute} && s.clients[id].executions == n
  }

  lemma {:induction false} WaitsStep(s: State, e: Event, id: nat, key: Key, n: nat)
    requires Waits(s, id, key, n) && Step(s, e).Some? && e != ExpireData(key) && e != ExpireLock(key)
    ensures Waits(Step(s, e).value, id, key, n)
  {
    StepKeepsOwned(s, e);
    StepWhileAbandoned(s, e, key);
    if e.Next? {
      ActWhileAbandoned(s, e.id, key, e.outcome);
      DataStays(e.id, s.clients[e.id], s.shared, e.outcome);
    }
    hide Act, Owned, Abandoned;
  }

  lemma {:induction false} WaitsRun(s: State, events: seq<Event>, id: nat, key: Key, n: nat)
    requires Waits(s, id, key, n) && Steps(s, events).Some? && Keeps(events, key, false)
    ensures Waits(Steps(s, events).value, id, key, n)
    decreases |events|
  {
    if events != [] {
      WaitsStep(s, events[0], id, key, n);
      WaitsRun(Step(s, events[0]).value, events[1..], id, key, n);
    }
  }

  /** How far the DEL is away. */
  function ToDelete(pc: Pc): nat {
    match pc
    case Execute => 5
    case SetData(_) => 4
    case Publish(_) => 3
    case PublishError => 3
    case ReleaseGet(_) => 2
    case ErrorReleaseGet => 2
    case _ => 1
  }

  function Undisturbed(pc: Pc): Outcome {
    if pc == Execute then Executes("") else Fine
  }

  lemma {:induction false} DeleteStep(s: State, j: nat, key: Key)
    requires Deletes(s, j, key)
    ensures Act(j, s.clients[j], s.shared, Undisturbed(s.clients[j].pc)).Some?
    ensures var t := After(s, j, Undisturbed(s.clients[j].pc));
            && (key in s.shared.data ==> key in t.shared.data)
            && (key !in t.shared.locks
                || (Deletes(t, j, key) && ToDelete(t.clients[j].pc) < ToDelete(s.clients[j].pc)))
  {
  }

  /** Nothing failing, the lock is deleted. */
  lemma {:induction false} Delete(from: State, before: seq<Event>, s: State, j: nat, key: Key)
    returns (events: seq<Event>, t: State)
    requires Steps(from, before) == Some(s) && NoExpiry(before)
    requires key in s.shared.locks ==> Deletes(s, j, key)
    ensures Steps(from, events) == Some(t) && NoExpiry(events)
    ensures key !in t.shared.locks
    ensures forall i :: i in s.clients && i != j ==> i in t.clients && t.clients[i] == s.clients[i]
    decreases if key in s.shared.locks then ToDelete(s.clients[j].pc) else 0
  {
    if key !in s.shared.locks {
      events, t := before, s;
    } else {
      var o := Undisturbed(s.clients[j].pc);
      DeleteStep(s, j, key);
      Go(from, before, s, j, o);
      events, t := Delete(from, before + [Next(j, o, {})], After(s, j, o), j, key);
    }
  }

  /** With the lock free, a `get` past the test can execute. */
  lemma {:induction false} ExecuteNow(from: State, before: seq<Event>, s: State, id: nat) returns (events: seq<Event>)
    requires Steps(from, before) == Some(s)
    requires id in s.clients && PastTheTest(s.clients[id].pc)
    requires s.clients[id].pc == AcquireLock ==> s.clients[id].key !in s.shared.locks
    ensures Steps(from, events).Some? && Executions(Steps(from, events).value, id) > s.clients[id].executions
    ensures forall e :: e in events ==> e in before || e.Next?
  {
    events := before;
    var t := s;
    if t.clients[id].pc == AcquireLock {
      Go(from, events, t, id, Fine);
      events, t := events + [Next(id, Fine, {})], After(t, id, Fine);
    }
    Go(from, events, t, id, Executes(""));
    events := events + [Next(id, Executes(""), {})];
  }

  /** The continuation that executes: first the lock goes, if the `get` needs it, then it is taken. */
  lemma {:induction false} ExecutesAgain(s: State, id: nat, lockExpires: bool)
    requires id in s.clients && PastTheTest(s.clients[id].pc)
    requires s.clients[id].pc == AcquireLock && Abandoned(s, s.clients[id].key) ==> lockExpires
    ensures CanExecute(s, id, lockExpires)
  {
    var key := s.clients[id].key;
    var before, t := [], s;
    if s.clients[id].pc == AcquireLock && key in s.shared.locks {
      if Abandoned(s, key) {
        before, t := [ExpireLock(key)], s.(shared := Unlock(s.shared, key));
        Seqs.Single(ExpireLock(key));
        assert Steps(s, before) == Some(t);
      } else {
        var j :| j in s.clients && Deletes(s, j, key);
        before, t := Delete(s, [], s, j, key);
      }
    }
    var events := ExecuteNow(s, before, t, id);
    assert ExecutesIn(s, id, lockExpires, events);
  }

  /**
   When the call runs again. After any run that left data for the key, and as long as that data does not
   expire: a `get` can execute exactly when it is past its last look at the data; if the lock does not
   expire either, exactly when it is and does not wait for a lock that nobody is going to delete.
   */
  lemma {:induction false} SingleFlight(run: seq<Event>, id: nat)
    requires Steps(EMPTY, run).Some?
    requires var s := Steps(EMPTY, run).value; id in s.clients && s.clients[id].key in s.shared.data
    ensures var s := Steps(EMPTY, run).value; var c := s.clients[id];
            && (CanExecute(s, id, true) <==> PastTheTest(c.pc))
            && (CanExecute(s, id, false) <==> PastTheTest(c.pc) && !(c.pc == AcquireLock && Abandoned(s, c.key)))
  {
    var s := Steps(EMPTY, run).value;
    var c := s.clients[id];
    if PastTheTest(c.pc) {
      ExecutesAgain(s, id, true);
      if !(c.pc == AcquireLock && Abandoned(s, c.key)) {
        ExecutesAgain(s, id, false);
      }
    }
    forall lockExpires, events | ExecutesIn(s, id, lockExpires, events)
      ensures PastTheTest(c.pc) && (c.pc == AcquireLock && Abandoned(s, c.key) ==> lockExpires)
    {
      KeyStays(s, events, id);
      if !PastTheTest(c.pc) {
        ServedNeverExecutes(s, events, id, c.key);
      } else if c.pc == AcquireLock && Abandoned(s, c.key) && !lockExpires {
        RunKeepsOwned(EMPTY, run);
        WaitsRun(s, events, id, c.key, c.executions);
      }
    }
  }

  lemma {:induction false} KeyStays(s: State, events: seq<Event>, id: nat)
    requires id in s.clients && Steps(s, events).Some?
    ensures id in Steps(s, events).value.clients && Steps(s, events).value.clients[id].key == s.clients[id].key
    decreases |events|
  {
    if events != [] {
      KeyStays(Step(s, events[0]).value, events[1..], id);
    }
  }

  lemma {:induction false} BothMissed() returns (events: seq<Event>, s: State)
    ensures NoExpiry(events) && Steps(EMPTY, events) == Some(s)
    ensures s == State(map[0 := Client(SOME_KEY, true, AcquireLock, None, 0, false),
                           1 := Client(SOME_KEY, true, AcquireLock, None, 0, false)],
                       EMPTY.shared)
  {
    MissBoth([], EMPTY, 0, SOME_KEY);
    events := Missed([], 0, SOME_KEY);
    s := Steps(EMPTY, events).value;
    MissBoth(events, s, 1, SOME_KEY);
    events := Missed(events, 1, SOME_KEY);
    s := Steps(EMPTY, events).value;
  }

  /**
   The lock does not make the execution unique: without a single expiry, a `get` that missed the data
   before it was set can take the lock after it was released, and the call runs again for the same key.
   */
  lemma {:induction false} TwoExecutionsWithoutExpiry() returns (events: seq<Event>)
    ensures NoExpiry(events) && Steps(EMPTY, events).Some?
    ensures var s := Steps(EMPTY, events).value;
            && 0 in s.clients && 1 in s.clients && s.clients[0].key == s.clients[1].key
            && s.clients[0].pc.Returned? && s.clients[0].executions == 1
            && s.clients[1].pc == Execute && s.clients[0].key in s.shared.data
  {
    var s;
    events, s := BothMissed();
    Go(EMPTY, events, s, 0, Fine);
    events, s := events + [Next(0, Fine, {})], After(s, 0, Fine);
    var more, t := Finish(EMPTY, events, s, 0, {}, "a");
    assert t.clients[1] == s.clients[1];
    events := events + more;
    Go(EMPTY, events, t, 1, Fine);
    events := events + [Next(1, Fine, {})];
  }

  /**
   When a lock expires too early, a second `get` executes beside the first; and when it expires between
   the two commands of the release, the first one's DEL deletes the second one's lock.
   */
  lemma {:induction false} EarlyExpiryBreaksExclusion() returns (both: seq<Event>, stolen: seq<Event>)
    ensures Steps(EMPTY, both).Some? && Steps(EMPTY, stolen).Some?
    ensures var s := Steps(EMPTY, both).value;
            && 0 in s.clients && 1 in s.clients && s.clients[0].key == s.clients[1].key
            && s.clients[0].pc == Execute && s.clients[1].pc == Execute
    ensures var s := Steps(EMPTY, stolen).value;
            1 in s.clients && s.clients[1].pc == Execute && s.clients[1].key !in s.shared.locks
  {
    MissBoth([], EMPTY, 0, SOME_KEY);
    var events := Missed([], 0, SOME_KEY);
    var s := Steps(EMPTY, events).value;
    Go(EMPTY, events, s, 0, Fine);
    events, s := events + [Next(0, Fine, {})], After(s, 0, Fine);
    both := ExpireThenAcquire(events, s);
    stolen := StealLock(events, s);
  }

  lemma {:induction false} ExpireThenAcquire(events: seq<Event>, s: State) returns (more: seq<Event>)
    requires Steps(EMPTY, events) == Some(s)
    requires 1 !in s.clients && SOME_KEY !in s.shared.data
    ensures Steps(EMPTY, more).Some?
    ensures var t := Steps(EMPTY, more).value;
            && t.clients == s.clients[1 := Client(SOME_KEY, true, Execute, None, 0, false)]
            && t.shared == s.shared.(locks := s.shared.locks[SOME_KEY := 1])
  {
    StepsSnoc(EMPTY, events, ExpireLock(SOME_KEY));
    var t := s.(shared := Unlock(s.shared, SOME_KEY));
    more := events + [ExpireLock(SOME_KEY)];
    MissBoth(more, t, 1, SOME_KEY);
    more := Missed(more, 1, SOME_KEY);
    t := Steps(EMPTY, more).value;
    Go(EMPTY, more, t, 1, Fine);
    more := more + [Next(1, Fine, {})];
    assert After(t, 1, Fine).shared.locks == s.shared.locks[SOME_KEY := 1];
  }

  /** The first call fails; the lock expires, and is taken again, between the GET and the DEL of the release. */
  lemma {:induction false} StealLock(events: seq<Event>, s: State) returns (more: seq<Event>)
    requires Steps(EMPTY, events) == Some(s)
    requires s.clients == map[0 := Client(SOME_KEY, true, Execute, None, 0, false)]
    requires SOME_KEY !in s.shared.data && Holds(s.shared, SOME_KEY, 0)
    ensures Steps(EMPTY, more).Some?
    ensures var t := Steps(EMPTY, more).value;
            1 in t.clients && t.clients[1].pc == Execute && t.clients[1].key == SOME_KEY && SOME_KEY !in t.shared.locks
  {
    Go(EMPTY, events, s, 0, ExecutionFails(true));
    var t := After(s, 0, ExecutionFails(true));
    more := events + [Next(0, ExecutionFails(true), {})];
    Go(EMPTY, more, t, 0, Fine);
    t := After(t, 0, Fine);
    more := more + [Next(0, Fine, {})];
    more := ExpireThenAcquire(more, t);
    t := Steps(EMPTY, more).value;
    Go(EMPTY, more, t, 0, Fine);
    more := more + [Next(0, Fine, {})];
  }
}
