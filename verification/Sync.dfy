/**
 The chain follower of the Rust indexer (`runner.rs`, and `store_l2_block` in `indexer.rs`): every
 `insert` appends the next remote block or rolls one local block back, and a cached tip stands
 beside the database.

 The database is the `blocks` table keyed by number; the rows of a block's transactions and logs come
 and go with it in the same database transaction.
 */
module Sync {
  import opened Wrappers
  import opened Binary
  import Seqs

  datatype Block = Block(number: nat, hash: Bytes, parentHash: Bytes, body: Bytes)

  type Table = map<nat, Block>

  ghost predicate Contiguous(t: Table) {
    forall n: nat :: n in t <==> n < |t|
  }

  ghost predicate Linked(chain: seq<Block>) {
    forall n :: 0 <= n < |chain| ==>
      chain[n].number == n && (n > 0 ==> chain[n].parentHash == chain[n - 1].hash)
  }

  ghost function ChainOf(t: Table): (chain: seq<Block>)
    requires Contiguous(t)
    ensures |chain| == |t|
    ensures forall n :: 0 <= n < |t| ==> chain[n] == t[n]
  {
    seq(|t|, n requires 0 <= n < |t| && Contiguous(t) => t[n])
  }

  ghost predicate IsChain(t: Table) {
    Contiguous(t) && Linked(ChainOf(t))
  }

  /** The answer of `select number from blocks order by number desc limit 1`. */
  ghost predicate IsTip(t: Table, tip: Option<nat>) {
    match tip
    case None => |t| == 0
    case Some(n) => n in t && forall m :: m in t ==> m <= n
  }

  lemma {:induction false} TipOfContiguous(t: Table, tip: Option<nat>)
    requires Contiguous(t)
    ensures IsTip(t, tip) <==> tip == if |t| == 0 then None else Some(|t| - 1)
  {
    if |t| > 0 {
      assert |t| - 1 in t;
    }
  }

  lemma {:induction false} HasMax(keys: set<nat>)
    requires keys != {}
    ensures exists n :: n in keys && forall m :: m in keys ==> m <= n
  {
    var k :| k in keys;
    if keys != {k} {
      HasMax(keys - {k});
      var n :| n in keys - {k} && forall m :: m in keys - {k} ==> m <= n;
      var top := if k < n then n else k;
      forall m | m in keys ensures m <= top {
        if m != k {
          assert m in keys - {k};
        }
      }
      assert top in keys;
    }
  }

  lemma {:induction false} TableHasTip(t: Table)
    requires |t| > 0
    ensures exists n :: n in t && forall m :: m in t ==> m <= n
  {
    HasMax(t.Keys);
    var n :| n in t.Keys && forall m :: m in t.Keys ==> m <= n;
    assert n in t;
  }

  ghost function DbTip(t: Table): (tip: Option<nat>)
    ensures IsTip(t, tip)
  {
    if |t| == 0 then None else
    TableHasTip(t);
    var n :| n in t && forall m :: m in t ==> m <= n;
    Some(n)
  }

  // ----- what one `insert` decides -----

  datatype Action = Wait | Append(block: Block) | Rollback(number: nat)

  /** Against the remote's answer to a request for the block after the tip. */
  ghost function Decide(t: Table, answer: Option<Block>): Action
    requires Contiguous(t)
  {
    if answer.None? then Wait
    else if |t| == 0 || answer.value.parentHash == t[|t| - 1].hash then Append(answer.value)
    else Rollback(|t| - 1)
  }

  ghost function Apply(t: Table, a: Action): Table {
    match a
    case Wait => t
    case Append(block) => t[block.number := block]
    case Rollback(number) => t - {number}
  }

  /** The cached tip behind an action that left the table `t`; a rollback fills no empty cache. */
  ghost predicate TipFollows(before: Option<nat>, a: Action, t: Table, after: Option<nat>) {
    match a
    case Wait => after == before
    case Append(_) => |t| > 0 && after == Some(|t| - 1)
    case Rollback(_) => after == if before.None? || |t| == 0 then None else Some(|t| - 1)
  }

  lemma {:induction false} AppendKeepsChain(t: Table, b: Block)
    requires IsChain(t) && b.number == |t|
    requires |t| > 0 ==> b.parentHash == t[|t| - 1].hash
    ensures IsChain(t[b.number := b]) && ChainOf(t[b.number := b]) == ChainOf(t) + [b]
  {
    AppendSize(t, b);
    var u, chain := t[b.number := b], ChainOf(t) + [b];
    assert Linked(chain);
    assert ChainOf(u) == chain;
  }

  lemma {:induction false} RollbackKeepsChain(t: Table, last: nat)
    requires IsChain(t) && last + 1 == |t|
    ensures IsChain(t - {last}) && |t - {last}| == last
    ensures ChainOf(t - {last}) == ChainOf(t)[..last]
  {
    var u := t - {last};
    assert last in t;
    assert u.Keys == t.Keys - {last};
    KeepsLinks(t, u, last);
  }

  lemma {:induction false} KeepsLinks(t: Table, u: Table, last: nat)
    requires IsChain(t) && last + 1 == |t| && |u| == last
    requires forall n: nat :: n in u <==> n in t && n != last
    requires forall n: nat :: n in u ==> u[n] == t[n]
    ensures IsChain(u) && ChainOf(u) == ChainOf(t)[..last]
  {
  }

  lemma {:induction false} AppendSize(t: Table, b: Block)
    requires Contiguous(t)
    ensures |t[|t| := b]| == |t| + 1
  {
    assert |t| !in t;
  }

  // ----- the runner -----

  /** Which of the awaits of one `insert` fail. */
  datatype Faults = Faults(tipRead: bool, prevRead: bool, guardRead: bool, commit: bool, bumpRead: bool)

  const NO_FAULTS := Faults(false, false, false, false, false)

  /** What `get_block_by_number(number)` may answer: a failure, nothing, or the block of that number. */
  predicate Honest(number: nat, answer: Result<Option<Block>>) {
    answer.Ok? && answer.value.Some? ==> answer.value.value.number == number
  }

  class Runner {
    var localTip: Option<nat>
    var blocks: Table

    ghost predicate Valid()
      reads this
    {
      IsChain(blocks) && (localTip.Some? ==> IsTip(blocks, localTip))
    }

    /** A start or restart of the process on an existing database. */
    constructor (blocks: Table)
      requires IsChain(blocks)
      ensures Valid() && localTip.None? && this.blocks == blocks
    {
      this.localTip, this.blocks := None, blocks;
    }

    method GetDbTipNumber() returns (tip: Option<nat>)
      ensures IsTip(blocks, tip)
    {
      if |blocks| == 0 {
        return None;
      }
      TableHasTip(blocks);
      var n :| n in blocks && forall m :: m in blocks ==> m <= n;
      return Some(n);
    }

    method Tip(fail: bool) returns (r: Result<Option<nat>>)
      requires Valid()
      ensures r.Ok? ==> IsTip(blocks, r.value)
      ensures r.Err? <==> fail && localTip.None?
    {
      match localTip {
        case Some(t) => r := Ok(Some(t));
        case None =>
          if fail {
            return Err("database error");
          }
          var tip := GetDbTipNumber();
          r := Ok(tip);
      }
    }

    /** Runs when the block after the cached tip has just been committed. */
    method BumpTip(fail: bool) returns (r: Result<()>)
      requires IsChain(blocks) && |blocks| > 0
      requires localTip.Some? ==> localTip.value + 2 == |blocks|
      modifies this`localTip
      ensures Valid()
      ensures r.Err? <==> fail && old(localTip).None?
      ensures localTip == if r.Ok? then Some(|blocks| - 1) else None
    {
      var firstBlock: Option<nat> := Some(0);
      match localTip {
        case None =>
          if fail {
            return Err("database error");
          }
          var tip := GetDbTipNumber();
          TipOfContiguous(blocks, tip);
          localTip := if tip.Some? then tip else firstBlock;
        case Some(t) =>
          localTip := Some(t + 1);
      }
      TipOfContiguous(blocks, localTip);
      r := Ok(());
    }

    /** Runs when the block of the cached tip has just been deleted. */
    method RevertTip()
      requires IsChain(blocks)
      requires localTip.Some? ==> localTip.value == |blocks|
      modifies this`localTip
      ensures Valid()
      ensures localTip.Some? <==> old(localTip).Some? && |blocks| > 0
    {
      if localTip.Some? {
        if localTip.value == 0 {
          localTip := None;
        } else {
          localTip := Some(localTip.value - 1);
        }
      }
      TipOfContiguous(blocks, localTip);
    }

    method DeleteBlock(number: nat, fail: bool) returns (r: Result<()>)
      modifies this`blocks
      ensures r.Err? <==> fail
      ensures blocks == if fail then old(blocks) else old(blocks) - {number}
    {
      if fail {
        return Err("database error");
      }
      blocks := blocks - {number};
      r := Ok(());
    }

    /** `store_l2_block`: the guard lets a number through that is above the tip or not stored. */
    method StoreL2Block(block: Block, guardRead: bool, commit: bool) returns (r: Result<()>)
      modifies this`blocks
      ensures r.Err? ==> blocks == old(blocks)
      ensures r.Ok? && block.number !in old(blocks) ==> blocks == old(blocks)[block.number := block]
      ensures r.Ok? && block.number in old(blocks) ==> blocks == old(blocks)
      ensures !guardRead && !commit ==> r.Ok?
    {
      if guardRead {
        return Err("database error");
      }
      var tip := GetDbTipNumber();
      var localTipNumber := if tip.Some? then tip.value else 0;
      if block.number > localTipNumber || block.number !in blocks {
        if commit {
          return Err("database error");
        }
        blocks := blocks[block.number := block];
      }
      r := Ok(());
    }

    /**
     One `insert`. Whatever fails, the cached tip and the chain stay consistent; a success has applied
     exactly the decided action, and a failure none or all of it.
     */
    method Insert(remote: nat -> Result<Option<Block>>, f: Faults) returns (r: Result<bool>)
      requires Valid()
      requires forall n: nat :: Honest(n, remote(n))
      modifies this
      ensures Valid()
      ensures r.Ok? ==> remote(|old(blocks)|).Ok?
      ensures r.Ok? ==> blocks == Apply(old(blocks), Decide(old(blocks), remote(|old(blocks)|).value))
      ensures r.Ok? ==> (r.value <==> remote(|old(blocks)|).value.Some?)
      ensures r.Ok? ==> TipFollows(old(localTip), Decide(old(blocks), remote(|old(blocks)|).value), blocks, localTip)
      ensures blocks == old(blocks)
              || (remote(|old(blocks)|).Ok?
                  && blocks == Apply(old(blocks), Decide(old(blocks), remote(|old(blocks)|).value)))
      ensures f == NO_FAULTS && remote(|old(blocks)|).Ok? ==> r.Ok?
    {
      var localTip' := Tip(f.tipRead);
      if localTip'.Err? {
        return Err(localTip'.reason);
      }
      TipOfContiguous(blocks, localTip'.value);
      if localTip.Some? {
        TipOfContiguous(blocks, localTip);
      }
      var currentBlockNumber := if localTip'.value.None? then 0 else localTip'.value.value + 1;
      var answer := remote(currentBlockNumber);
      if answer.Err? {
        return Err(answer.reason);
      }
      if answer.value.None? {
        return Ok(false);
      }
      assert Honest(currentBlockNumber, remote(currentBlockNumber));
      r := InsertBlock(currentBlockNumber, answer.value.value, f);
    }

    /** The part of `insert` that has the block in hand. */
    method InsertBlock(currentBlockNumber: nat, l2Block: Block, f: Faults) returns (r: Result<bool>)
      requires Valid() && currentBlockNumber == l2Block.number == |blocks|
      modifies this
      ensures Valid()
      ensures r.Ok? ==> r.value && blocks == Apply(old(blocks), Decide(old(blocks), Some(l2Block)))
      ensures r.Ok? ==> TipFollows(old(localTip), Decide(old(blocks), Some(l2Block)), blocks, localTip)
      ensures blocks == old(blocks) || blocks == Apply(old(blocks), Decide(old(blocks), Some(l2Block)))
      ensures f == NO_FAULTS ==> r.Ok?
    {
      hide IsTip, Linked;
      if currentBlockNumber > 0 {
        var prevBlockNumber := currentBlockNumber - 1;
        if f.prevRead {
          return Err("database error");
        }
        if prevBlockNumber in blocks {
          if l2Block.parentHash == blocks[prevBlockNumber].hash {
            r := AppendBlock(l2Block, f);
          } else {
            r := RollBack(prevBlockNumber, f);
          }
          return;
        }
      } else {
        r := AppendBlock(l2Block, f);
        return;
      }
      return Ok(true);
    }

    method AppendBlock(block: Block, f: Faults) returns (r: Result<bool>)
      requires Valid() && block.number == |blocks|
      requires |blocks| > 0 ==> block.parentHash == blocks[|blocks| - 1].hash
      modifies this
      ensures Valid()
      ensures r.Ok? ==> r.value && blocks == old(blocks)[block.number := block]
      ensures r.Ok? ==> TipFollows(old(localTip), Append(block), blocks, localTip)
      ensures blocks == old(blocks) || blocks == old(blocks)[block.number := block]
      ensures f == NO_FAULTS ==> r.Ok?
    {
      AppendKeepsChain(blocks, block);
      if localTip.Some? {
        TipOfContiguous(blocks, localTip);
      }
      var stored := StoreL2Block(block, f.guardRead, f.commit);
      if stored.Err? {
        return Err(stored.reason);
      }
      var bumped := BumpTip(f.bumpRead);
      if bumped.Err? {
        return Err(bumped.reason);
      }
      r := Ok(true);
    }

    method RollBack(number: nat, f: Faults) returns (r: Result<bool>)
      requires Valid() && number + 1 == |blocks|
      modifies this
      ensures Valid()
      ensures r.Ok? ==> r.value && blocks == old(blocks) - {number}
      ensures r.Ok? ==> TipFollows(old(localTip), Rollback(number), blocks, localTip)
      ensures blocks == old(blocks) || blocks == old(blocks) - {number}
      ensures f == NO_FAULTS ==> r.Ok?
    {
      RollbackKeepsChain(blocks, number);
      if localTip.Some? {
        TipOfContiguous(blocks, localTip);
      }
      var deleted := DeleteBlock(number, f.commit);
      if deleted.Err? {
        return Err(deleted.reason);
      }
      RevertTip();
      TipOfContiguous(blocks, localTip);
      r := Ok(true);
    }
  }

  // ----- every run, stopped anywhere -----

  /** Where the runner is between two awaits. */
  datatype Pc =
    | Idle
    | Asking(number: nat)
    | Checking(block: Block)
    | Storing(block: Block)
    | Bumping
    | Deleting(number: nat)
    | Reverting

  datatype State = State(localTip: Option<nat>, blocks: Table, pc: Pc)

  /**
   `ConnectionError` is a failing call to the node, which answers with the block and, while the block is
   stored, with the receipts; `run` goes on with the cached tip it has. `Fail` stands for every other
   failure and for a killed process: the runner restarts.
   */
  datatype Event =
    | Start
    | Answer(answer: Option<Block>)
    | ConnectionError
    | Check
    | CommitStore
    | Bump
    | CommitDelete
    | Revert
    | Fail

  ghost predicate Guard(t: Table, number: nat) {
    number > (if DbTip(t).Some? then DbTip(t).value else 0) || number !in t
  }

  /** One await of the program, or one failure. */
  ghost function Step(s: State, e: Event): Option<State> {
    match e
    case Fail => Some(State(None, s.blocks, Idle))
    case Start =>
      if s.pc != Idle then None else
      var tip := if s.localTip.Some? then s.localTip else DbTip(s.blocks);
      Some(s.(pc := Asking(if tip.None? then 0 else tip.value + 1)))
    case ConnectionError =>
      if s.pc.Asking? || s.pc.Storing? then Some(s.(pc := Idle)) else None
    case Answer(answer) =>
      if !s.pc.Asking? || !Honest(s.pc.number, Ok(answer)) then None
      else Some(s.(pc := if answer.None? then Idle else Checking(answer.value)))
    case Check =>
      if !s.pc.Checking? then None else
      var block := s.pc.block;
      Some(s.(pc := if block.number == 0 then Storing(block)
                    else if block.number - 1 !in s.blocks then Idle
                    else if block.parentHash == s.blocks[block.number - 1].hash then Storing(block)
                    else Deleting(block.number - 1)))
    case CommitStore =>
      if !s.pc.Storing? then None else
      var block := s.pc.block;
      Some(s.(blocks := if Guard(s.blocks, block.number) then s.blocks[block.number := block] else s.blocks,
              pc := Bumping))
    case Bump =>
      if s.pc != Bumping then None else
      var tip := match s.localTip
        case Some(t) => t + 1
        case None => if DbTip(s.blocks).Some? then DbTip(s.blocks).value else 0;
      Some(s.(localTip := Some(tip), pc := Idle))
    case CommitDelete =>
      if !s.pc.Deleting? then None else Some(s.(blocks := s.blocks - {s.pc.number}, pc := Reverting))
    case Revert =>
      if s.pc != Reverting then None else
      var tip := if s.localTip.None? || s.localTip.value == 0 then None else Some(s.localTip.value - 1);
      Some(s.(localTip := tip, pc := Idle))
  }

  /** A connection error keeps the cached tip, a restart forgets it, and only commits change the database. */
  lemma {:induction false} Interruptions(s: State, e: Event)
    ensures Step(s, Fail) == Some(State(None, s.blocks, Idle))
    ensures Step(s, ConnectionError).Some? <==> s.pc.Asking? || s.pc.Storing?
    ensures Step(s, ConnectionError).Some? ==> Step(s, ConnectionError) == Some(State(s.localTip, s.blocks, Idle))
    ensures e != CommitStore && e != CommitDelete && Step(s, e).Some? ==> Step(s, e).value.blocks == s.blocks
  {
  }

  ghost predicate Extends(t: Table, b: Block)
    requires Contiguous(t)
  {
    b.number == |t| && (|t| > 0 ==> b.parentHash == t[|t| - 1].hash)
  }

  /** What holds between any two awaits. */
  ghost predicate Inv(s: State) {
    && IsChain(s.blocks)
    && match s.pc
       case Idle => Cached(s, |s.blocks| - 1)
       case Asking(number) => Cached(s, |s.blocks| - 1) && number == |s.blocks|
       case Checking(block) => Cached(s, |s.blocks| - 1) && block.number == |s.blocks|
       case Storing(block) => Cached(s, |s.blocks| - 1) && Extends(s.blocks, block)
       case Bumping => Cached(s, |s.blocks| - 2) && |s.blocks| > 0
       case Deleting(number) => Cached(s, |s.blocks| - 1) && number + 1 == |s.blocks|
       case Reverting => Cached(s, |s.blocks|)
  }

  predicate Cached(s: State, tip: int) {
    s.localTip.Some? ==> s.localTip.value == tip
  }

  lemma {:induction false} InitHolds(blocks: Table)
    requires IsChain(blocks)
    ensures Inv(State(None, blocks, Idle))
  {
  }

  lemma {:induction false} CommitStoreKeepsInv(s: State)
    requires Inv(s) && s.pc.Storing?
    ensures Guard(s.blocks, s.pc.block.number)
    ensures Inv(Step(s, CommitStore).value)
  {
    AppendKeepsChain(s.blocks, s.pc.block);
    assert s.pc.block.number !in s.blocks;
  }

  lemma {:induction false} CommitDeleteKeepsInv(s: State)
    requires Inv(s) && s.pc.Deleting?
    ensures Inv(Step(s, CommitDelete).value)
  {
    RollbackKeepsChain(s.blocks, s.pc.number);
  }

  lemma {:induction false} ReadsKeepInv(s: State, e: Event)
    requires Inv(s) && Step(s, e).Some?
    requires e.Start? || e.Check? || e.Bump?
    ensures Inv(Step(s, e).value)
  {
    TipOfContiguous(s.blocks, DbTip(s.blocks));
  }

  lemma {:induction false} StepKeepsInv(s: State, e: Event)
    requires Inv(s) && Step(s, e).Some?
    ensures Inv(Step(s, e).value)
  {
    match e
    case CommitStore => CommitStoreKeepsInv(s);
    case CommitDelete => CommitDeleteKeepsInv(s);
    case Start => ReadsKeepInv(s, e);
    case Check => ReadsKeepInv(s, e);
    case Bump => ReadsKeepInv(s, e);
    case _ =>
  }

  /** The state after a run; none if some event cannot happen where it stands. */
  ghost function Steps(s: State, events: seq<Event>): Option<State>
    decreases |events|
  {
    if events == [] then Some(s)
    else if Step(s, events[0]).None? then None
    else Steps(Step(s, events[0]).value, events[1..])
  }

  lemma {:induction false} RunKeepsInv(s: State, events: seq<Event>)
    requires Inv(s) && Steps(s, events).Some?
    ensures Inv(Steps(s, events).value)
    decreases |events|
  {
    if events != [] {
      StepKeepsInv(s, events[0]);
      RunKeepsInv(Step(s, events[0]).value, events[1..]);
    }
  }

  /**
   After every run from a stored chain, with the remote answering anything (honest about numbers) and
   failures or kills between any two awaits: the stored blocks are contiguous from 0 and hash-linked,
   the cached tip is absent or the database's, the guard of `store_l2_block` is true when reached, the
   previous block is always found, and `bump_tip` never falls back to 0.
   */
  lemma {:induction false} EveryRunIsSafe(blocks: Table, events: seq<Event>)
    requires IsChain(blocks)
    requires Steps(State(None, blocks, Idle), events).Some?
    ensures var s := Steps(State(None, blocks, Idle), events).value;
            && Inv(s)
            && IsChain(s.blocks)
            && (s.pc == Idle && s.localTip.Some? ==> IsTip(s.blocks, s.localTip))
            && (s.pc.Storing? ==> Guard(s.blocks, s.pc.block.number))
            && (s.pc.Checking? && s.pc.block.number > 0 ==> s.pc.block.number - 1 in s.blocks)
            && (s.pc == Bumping ==> DbTip(s.blocks).Some?)
  {
    InitHolds(blocks);
    RunKeepsInv(State(None, blocks, Idle), events);
    InvMeans(Steps(State(None, blocks, Idle), events).value);
  }

  lemma {:induction false} InvMeans(s: State)
    requires Inv(s)
    ensures s.pc == Idle && s.localTip.Some? ==> IsTip(s.blocks, s.localTip)
    ensures s.pc.Storing? ==> Guard(s.blocks, s.pc.block.number)
    ensures s.pc.Checking? && s.pc.block.number > 0 ==> s.pc.block.number - 1 in s.blocks
    ensures s.pc == Bumping ==> DbTip(s.blocks).Some?
  {
    TipOfContiguous(s.blocks, DbTip(s.blocks));
    TipOfContiguous(s.blocks, s.localTip);
  }

  // ----- convergence -----

  /** How many leading blocks two chains share. */
  ghost function Common(a: seq<Block>, b: seq<Block>): (c: nat)
    ensures c <= |a| && c <= |b|
  {
    if a == [] || b == [] || a[0] != b[0] then 0 else 1 + Common(a[1..], b[1..])
  }

  lemma {:induction false} CommonIs(a: seq<Block>, b: seq<Block>)
    ensures var c := Common(a, b); a[..c] == b[..c] && (c < |a| && c < |b| ==> a[c] != b[c])
  {
    if a != [] && b != [] && a[0] == b[0] {
      CommonIs(a[1..], b[1..]);
      var c := Common(a[1..], b[1..]);
      assert a[..c + 1] == [a[0]] + a[1..][..c];
      assert b[..c + 1] == [b[0]] + b[1..][..c];
    }
  }

  lemma {:induction false} CommonAtLeast(a: seq<Block>, b: seq<Block>, c: nat)
    requires c <= |a| && c <= |b| && a[..c] == b[..c]
    ensures Common(a, b) >= c
  {
    if c > 0 {
      assert a[0] == a[..c][0] == b[..c][0] == b[0];
      Seqs.TailOfTake(a, c);
      Seqs.TailOfTake(b, c);
      CommonAtLeast(a[1..], b[1..], c - 1);
    }
  }

  lemma {:induction false} CommonAtMost(a: seq<Block>, b: seq<Block>, c: nat)
    requires c < |a| && c < |b| && a[c] != b[c]
    ensures Common(a, b) <= c
    decreases c
  {
    if c > 0 {
      CommonAtMost(a[1..], b[1..], c - 1);
    }
  }

  lemma {:induction false} CommonUnique(a: seq<Block>, b: seq<Block>, c: nat)
    requires c <= |a| && c <= |b|
    requires a[..c] == b[..c] && (c < |a| && c < |b| ==> a[c] != b[c])
    ensures Common(a, b) == c
  {
    CommonAtLeast(a, b, c);
    if c < |a| && c < |b| {
      CommonAtMost(a, b, c);
    }
  }

  /** Equal hashes mean equal blocks. */
  ghost predicate CollisionFree(a: seq<Block>, b: seq<Block>) {
    forall x, y {:trigger NoCollision(x, y)} :: x in a && y in b ==> NoCollision(x, y)
  }

  predicate NoCollision(x: Block, y: Block) {
    x.hash == y.hash ==> x == y
  }

  lemma {:induction false} SameHashSamePrefix(a: seq<Block>, b: seq<Block>, k: nat)
    requires Linked(a) && Linked(b) && CollisionFree(a, b)
    requires 0 < k <= |a| && k <= |b| && a[k - 1].hash == b[k - 1].hash
    ensures a[..k] == b[..k]
  {
    assert NoCollision(a[k - 1], b[k - 1]);
    if k > 1 {
      SameHashSamePrefix(a, b, k - 1);
    }
    assert a[..k] == a[..k - 1] + [a[k - 1]] && b[..k] == b[..k - 1] + [b[k - 1]];
  }

  /** Steps still to go: the blocks to roll back and the blocks to append. */
  ghost function Distance(a: seq<Block>, remote: seq<Block>): (d: nat)
    ensures d == (|a| - Common(a, remote)) + (|remote| - Common(a, remote))
  {
    |a| + |remote| - 2 * Common(a, remote)
  }

  function Serve(remote: seq<Block>, number: nat): Option<Block> {
    if number < |remote| then Some(remote[number]) else None
  }

  /** The local tip is on the remote exactly when the whole local chain is a prefix of it. */
  lemma {:induction false} TipOnRemote(a: seq<Block>, remote: seq<Block>)
    requires Linked(a) && Linked(remote) && CollisionFree(a, remote)
    requires 0 < |a| <= |remote|
    ensures Common(a, remote) == |a| <==> a[|a| - 1].hash == remote[|a| - 1].hash
    ensures Common(a, remote) == |a| <==> a[|a| - 1] in remote
  {
    var n := |a|;
    if a[n - 1].hash == remote[n - 1].hash {
      SameHashSamePrefix(a, remote, n);
      CommonUnique(a, remote, n);
    }
    if Common(a, remote) == n {
      CommonIs(a, remote);
      assert a[n - 1] == a[..n][n - 1] == remote[..n][n - 1];
    }
    forall j | 0 <= j < |remote| && remote[j] == a[n - 1] ensures j == n - 1 {
      assert remote[j].number == j && a[n - 1].number == n - 1;
    }
  }

  /**
   Against a fixed remote that is longer than the local chain, an `insert` appends exactly when the
   local chain is a prefix of the remote, and otherwise rolls back a block that is not on the remote.
   */
  lemma {:induction false} DecideFollows(t: Table, remote: seq<Block>)
    requires IsChain(t) && Linked(remote) && CollisionFree(ChainOf(t), remote)
    requires |t| < |remote|
    ensures Decide(t, Serve(remote, |t|))
         == if Common(ChainOf(t), remote) == |t| then Append(remote[|t|]) else Rollback(|t| - 1)
    ensures Common(ChainOf(t), remote) < |t| ==> t[|t| - 1] !in remote
  {
    if |t| > 0 {
      TipOnRemote(ChainOf(t), remote);
      assert remote[|t|].parentHash == remote[|t| - 1].hash;
    }
  }

  lemma {:induction false} CommonAfterAppend(a: seq<Block>, remote: seq<Block>)
    requires Common(a, remote) == |a| < |remote|
    ensures Common(a + [remote[|a|]], remote) == |a| + 1
    ensures a + [remote[|a|]] == remote[..|a| + 1]
  {
    CommonIs(a, remote);
    Seqs.Snoc(remote, |a|);
    CommonUnique(a + [remote[|a|]], remote, |a| + 1);
  }

  lemma {:induction false} CommonAfterRollback(a: seq<Block>, remote: seq<Block>)
    requires Common(a, remote) < |a|
    ensures Common(a[..|a| - 1], remote) == Common(a, remote)
  {
    CommonIs(a, remote);
    var c, init := Common(a, remote), a[..|a| - 1];
    assert init[..c] == a[..c];
    CommonUnique(init, remote, c);
  }

  lemma {:induction false} CollisionFreeAfter(a: seq<Block>, remote: seq<Block>)
    requires CollisionFree(a, remote) && CollisionFree(remote, remote)
    ensures |a| > 0 ==> CollisionFree(a[..|a| - 1], remote)
    ensures |a| < |remote| ==> CollisionFree(a + [remote[|a|]], remote)
  {
  }

  lemma {:induction false} AppendDecreases(t: Table, u: Table, remote: seq<Block>)
    requires IsChain(t) && Linked(remote)
    requires CollisionFree(ChainOf(t), remote) && CollisionFree(remote, remote)
    requires Common(ChainOf(t), remote) == |t| < |remote|
    requires u == t[|t| := remote[|t|]]
    ensures IsChain(u) && CollisionFree(ChainOf(u), remote)
    ensures Distance(ChainOf(u), remote) == Distance(ChainOf(t), remote) - 1
    ensures |u| == |t| + 1
    ensures |u| == |remote| ==> ChainOf(u) == remote
  {
    if |t| > 0 {
      TipOnRemote(ChainOf(t), remote);
      assert remote[|t|].parentHash == remote[|t| - 1].hash;
    }
    AppendSize(t, remote[|t|]);
    AppendKeepsChain(t, remote[|t|]);
    CollisionFreeAfter(ChainOf(t), remote);
    CommonAfterAppend(ChainOf(t), remote);
    if |t| + 1 == |remote| {
      assert remote[..|t| + 1] == remote;
    }
  }

  lemma {:induction false} RollbackDecreases(t: Table, u: Table, remote: seq<Block>, last: nat)
    requires IsChain(t) && Linked(remote)
    requires CollisionFree(ChainOf(t), remote) && CollisionFree(remote, remote)
    requires Common(ChainOf(t), remote) < |t| < |remote| && last + 1 == |t|
    requires u == t - {last}
    ensures IsChain(u) && CollisionFree(ChainOf(u), remote)
    ensures Distance(ChainOf(u), remote) == Distance(ChainOf(t), remote) - 1
    ensures |u| == last
  {
    RollbackKeepsChain(t, last);
    CollisionFreeAfter(ChainOf(t), remote);
    CommonAfterRollback(ChainOf(t), remote);
  }

  /** Every action against the fixed remote brings the chain exactly one step closer. */
  lemma {:induction false} ActionDecreases(t: Table, u: Table, remote: seq<Block>)
    requires IsChain(t) && Linked(remote)
    requires CollisionFree(ChainOf(t), remote) && CollisionFree(remote, remote)
    requires |t| < |remote|
    requires u == Apply(t, Decide(t, Serve(remote, |t|)))
    ensures IsChain(u) && CollisionFree(ChainOf(u), remote)
    ensures Distance(ChainOf(u), remote) == Distance(ChainOf(t), remote) - 1
    ensures |u| == if Common(ChainOf(t), remote) == |t| then |t| + 1 else |t| - 1
    ensures |u| == |remote| ==> ChainOf(u) == remote
    ensures |u| < |t| ==> t[|t| - 1] !in remote
  {
    DecideFollows(t, remote);
    if Common(ChainOf(t), remote) == |t| {
      AppendDecreases(t, u, remote);
    } else {
      RollbackDecreases(t, u, remote, |t| - 1);
    }
  }

  /** One round of `run` against the fixed remote. */
  method InsertFrom(runner: Runner, remote: seq<Block>) returns (more: bool)
    requires runner.Valid() && Linked(remote)
    requires CollisionFree(ChainOf(runner.blocks), remote) && CollisionFree(remote, remote)
    modifies runner
    ensures runner.Valid() && CollisionFree(ChainOf(runner.blocks), remote)
    ensures more <==> old(|runner.blocks|) < |remote|
    ensures !more ==> runner.blocks == old(runner.blocks)
    ensures more ==>
              runner.blocks == Apply(old(runner.blocks),
                                     Decide(old(runner.blocks), Serve(remote, old(|runner.blocks|))))
  {
    ghost var before := runner.blocks;
    var r := runner.Insert((n: nat) => Ok(Serve(remote, n)), NO_FAULTS);
    more := r.value;
    if more {
      ActionDecreases(before, runner.blocks, remote);
    }
  }

  /** What the rounds have done so far, starting from the chain `before`. */
  ghost predicate Progress(before: seq<Block>, t: Table, remote: seq<Block>, appended: nat, rolledBack: nat)
    requires IsChain(t)
  {
    if |before| < |remote| then
      && |t| <= |remote|
      && (|t| == |remote| ==> ChainOf(t) == remote)
      && |t| + rolledBack == |before| + appended
      && Distance(ChainOf(t), remote) + rolledBack + appended == Distance(before, remote)
    else ChainOf(t) == before && rolledBack == 0 && appended == 0
  }

  lemma {:induction false} ProgressStep(before: seq<Block>, t: Table, u: Table, remote: seq<Block>,
                                        appended: nat, rolledBack: nat)
    requires IsChain(t) && Linked(remote) && |t| < |remote|
    requires CollisionFree(ChainOf(t), remote) && CollisionFree(remote, remote)
    requires u == Apply(t, Decide(t, Serve(remote, |t|)))
    requires Progress(before, t, remote, appended, rolledBack)
    ensures IsChain(u) && |u| != |t|
    ensures Distance(ChainOf(u), remote) < Distance(ChainOf(t), remote)
    ensures |u| > |t| ==> Progress(before, u, remote, appended + 1, rolledBack)
    ensures |u| < |t| ==> Progress(before, u, remote, appended, rolledBack + 1) && t[|t| - 1] !in remote
  {
    ActionDecreases(t, u, remote);
  }

  /**
   The `run` loop, up to the first sleep, with nothing failing and the remote fixed: (M - L) blocks are
   rolled back, none of them on the remote, (N - L) are appended, and the local chain is then the remote.
   A local chain that is not shorter is left alone, so the run ends on the remote exactly when it was
   shorter or equal to it.
   */
  method RunUntilIdle(runner: Runner, remote: seq<Block>)
    returns (appended: nat, rolledBack: nat, ghost deleted: seq<Block>)
    requires runner.Valid() && Linked(remote)
    requires CollisionFree(ChainOf(runner.blocks), remote) && CollisionFree(remote, remote)
    modifies runner
    ensures runner.Valid()
    ensures var before := old(ChainOf(runner.blocks));
            if |before| < |remote| then
              && ChainOf(runner.blocks) == remote
              && rolledBack == |before| - Common(before, remote)
              && appended == |remote| - Common(before, remote)
            else ChainOf(runner.blocks) == before && rolledBack == appended == 0
    ensures |deleted| == rolledBack && forall b :: b in deleted ==> b !in remote
  {
    hide Linked, CollisionFree, Common;
    ghost var before := ChainOf(runner.blocks);
    appended, rolledBack, deleted := 0, 0, [];
    var more := true;
    while more
      invariant runner.Valid() && CollisionFree(ChainOf(runner.blocks), remote)
      invariant Progress(before, runner.blocks, remote, appended, rolledBack)
      invariant !more ==> |runner.blocks| >= |remote|
      invariant |deleted| == rolledBack && forall b :: b in deleted ==> b !in remote
      decreases Distance(ChainOf(runner.blocks), remote), more
    {
      ghost var t := runner.blocks;
      var size := |runner.blocks|;
      more := InsertFrom(runner, remote);
      if more {
        ProgressStep(before, t, runner.blocks, remote, appended, rolledBack);
        if |runner.blocks| > size {
          appended := appended + 1;
        } else {
          rolledBack := rolledBack + 1;
          deleted := deleted + [t[|t| - 1]];
        }
      }
    }
    if |before| < |remote| {
      ProgressEnds(before, runner.blocks, remote, appended, rolledBack);
    }
  }

  lemma {:induction false} ProgressEnds(before: seq<Block>, t: Table, remote: seq<Block>, appended: nat,
        rolledBack: nat)
    requires IsChain(t) && Progress(before, t, remote, appended, rolledBack)
    requires |before| < |remote| <= |t|
    ensures ChainOf(t) == remote
    ensures rolledBack == |before| - Common(before, remote)
    ensures appended == |remote| - Common(before, remote)
  {
    CommonSelf(remote);
  }

  lemma {:induction false} CommonSelf(a: seq<Block>)
    ensures Common(a, a) == |a|
  {
    CommonUnique(a, a, |a|);
  }

  // ----- the same with failures in between -----

  /** What holds between two awaits while the remote is fixed. */
  ghost predicate RemoteInv(s: State, remote: seq<Block>) {
    && Inv(s)
    && CollisionFree(ChainOf(s.blocks), remote)
    && match s.pc
       case Checking(block) => block.number < |remote| && block == remote[block.number]
       case Storing(block) =>
         block.number < |remote| && block == remote[block.number] && Common(ChainOf(s.blocks), remote) == |s.blocks|
       case Deleting(number) => Common(ChainOf(s.blocks), remote) < |s.blocks| < |remote|
       case _ => true
  }

  ghost predicate AnswersFrom(s: State, e: Event, remote: seq<Block>) {
    e.Answer? && s.pc.Asking? ==> e.answer == Serve(remote, s.pc.number)
  }

  predicate Commits(e: Event) {
    e.CommitStore? || e.CommitDelete?
  }

  lemma {:induction false} CheckApproaches(s: State, remote: seq<Block>)
    requires RemoteInv(s, remote) && Linked(remote) && s.pc.Checking?
    ensures RemoteInv(Step(s, Check).value, remote)
  {
    StepKeepsInv(s, Check);
    if |s.blocks| > 0 {
      TipOnRemote(ChainOf(s.blocks), remote);
      assert remote[|s.blocks|].parentHash == remote[|s.blocks| - 1].hash;
    }
  }

  lemma {:induction false} CommitStoreApproaches(s: State, u: State, remote: seq<Block>)
    requires RemoteInv(s, remote) && Linked(remote) && CollisionFree(remote, remote)
    requires s.pc.Storing? && Step(s, CommitStore) == Some(u)
    ensures RemoteInv(u, remote)
    ensures Distance(ChainOf(u.blocks), remote) == Distance(ChainOf(s.blocks), remote) - 1
  {
    CommitStoreKeepsInv(s);
    hide Common, Distance, CollisionFree, ChainOf, Linked;
    assert u.pc == Bumping && u.blocks == s.blocks[|s.blocks| := remote[|s.blocks|]];
    AppendDecreases(s.blocks, u.blocks, remote);
  }

  lemma {:induction false} CommitDeleteApproaches(s: State, u: State, remote: seq<Block>)
    requires RemoteInv(s, remote) && Linked(remote) && CollisionFree(remote, remote)
    requires s.pc.Deleting? && Step(s, CommitDelete) == Some(u)
    ensures RemoteInv(u, remote)
    ensures Distance(ChainOf(u.blocks), remote) == Distance(ChainOf(s.blocks), remote) - 1
  {
    CommitDeleteKeepsInv(s);
    hide Common, Distance, CollisionFree, ChainOf, Linked;
    RollbackDecreases(s.blocks, u.blocks, remote, s.pc.number);
  }

  lemma {:induction false} StepApproaches(s: State, e: Event, remote: seq<Block>)
    requires RemoteInv(s, remote) && Linked(remote) && CollisionFree(remote, remote)
    requires Step(s, e).Some? && AnswersFrom(s, e, remote)
    ensures RemoteInv(Step(s, e).value, remote)
    ensures Distance(ChainOf(Step(s, e).value.blocks), remote)
         == Distance(ChainOf(s.blocks), remote) - if Commits(e) then 1 else 0
  {
    hide Common, Distance, CollisionFree, ChainOf, Linked;
    match e
    case CommitStore => CommitStoreApproaches(s, Step(s, e).value, remote);
    case CommitDelete => CommitDeleteApproaches(s, Step(s, e).value, remote);
    case Check => CheckApproaches(s, remote);
    case _ => StepKeepsInv(s, e);
  }

  function CommitCount(events: seq<Event>): nat {
    if events == [] then 0 else (if Commits(events[0]) then 1 else 0) + CommitCount(events[1..])
  }

  ghost predicate AnswersAlong(s: State, events: seq<Event>, remote: seq<Block>)
    requires Steps(s, events).Some?
    decreases |events|
  {
    events != [] ==>
      AnswersFrom(s, events[0], remote) && AnswersAlong(Step(s, events[0]).value, events[1..], remote)
  }

  /**
   Failures, kills and restarts cost no progress: over any run against a fixed remote, the commits made
   are exactly the distance covered, so there are never more of them than (M - L) + (N - L).
   */
  lemma {:induction false} FailuresLoseNothing(s: State, events: seq<Event>, remote: seq<Block>)
    requires RemoteInv(s, remote) && Linked(remote) && CollisionFree(remote, remote)
    requires Steps(s, events).Some? && AnswersAlong(s, events, remote)
    ensures RemoteInv(Steps(s, events).value, remote)
    ensures CommitCount(events)
         == Distance(ChainOf(s.blocks), remote) - Distance(ChainOf(Steps(s, events).value.blocks), remote)
    decreases |events|
  {
    if events != [] {
      StepApproaches(s, events[0], remote);
      FailuresLoseNothing(Step(s, events[0]).value, events[1..], remote);
    }
  }

  // ----- the method and the machine -----

  /** The awaits of an `insert` that nothing interrupts. */
  ghost function EventsOf(t: Table, answer: Option<Block>): seq<Event>
    requires Contiguous(t)
  {
    match Decide(t, answer)
    case Wait => [Start, Answer(answer)]
    case Append(_) => [Start, Answer(answer), Check, CommitStore, Bump]
    case Rollback(_) => [Start, Answer(answer), Check, CommitDelete, Revert]
  }

  lemma {:induction false} FirstStep(s: State, e: Event, rest: seq<Event>)
    ensures Steps(s, [e] + rest) == if Step(s, e).None? then None else Steps(Step(s, e).value, rest)
  {
    Seqs.TailOfCons(e, rest);
  }

  lemma {:induction false} LastStep(s: State, e: Event)
    ensures Steps(s, [e]) == Step(s, e)
  {
    Seqs.Single(e);
  }

  lemma {:induction false} ThreeSteps(s: State, a: Event, b: Event, c: Event)
    ensures Steps(s, [a, b, c])
         == if Step(s, a).None? then None
            else if Step(Step(s, a).value, b).None? then None
            else Step(Step(Step(s, a).value, b).value, c)
  {
    FirstStep(s, a, [b, c]);
    assert [a] + [b, c] == [a, b, c];
    if Step(s, a).Some? {
      FirstStep(Step(s, a).value, b, [c]);
      assert [b] + [c] == [b, c];
      if Step(Step(s, a).value, b).Some? {
        LastStep(Step(Step(s, a).value, b).value, c);
      }
    }
  }

  lemma {:induction false} AskingRun(s: State, answer: Option<Block>)
    requires Inv(s) && s.pc == Idle && Honest(|s.blocks|, Ok(answer))
    ensures Step(s, Start) == Some(s.(pc := Asking(|s.blocks|)))
    ensures Step(s.(pc := Asking(|s.blocks|)), Answer(answer))
         == Some(s.(pc := if answer.None? then Idle else Checking(answer.value)))
  {
    TipOfContiguous(s.blocks, DbTip(s.blocks));
  }

  lemma {:induction false} AppendRun(s: State, block: Block)
    requires Inv(s) && s.pc == Checking(block) && Decide(s.blocks, Some(block)).Append?
    ensures Steps(s, [Check, CommitStore, Bump]).Some?
    ensures var u := Steps(s, [Check, CommitStore, Bump]).value;
            && u.pc == Idle && u.blocks == s.blocks[block.number := block]
            && TipFollows(s.localTip, Append(block), u.blocks, u.localTip)
  {
    hide DbTip, IsTip, Linked;
    var storing := s.(pc := Storing(block));
    assert Step(s, Check) == Some(storing);
    CommitStoreKeepsInv(storing);
    AppendSize(s.blocks, block);
    var t := s.blocks[block.number := block];
    TipOfContiguous(t, DbTip(t));
    assert Step(storing, CommitStore) == Some(State(s.localTip, t, Bumping));
    assert Step(State(s.localTip, t, Bumping), Bump) == Some(State(Some(|t| - 1), t, Idle));
    hide Step;
    ThreeSteps(s, Check, CommitStore, Bump);
  }

  lemma {:induction false} RollbackRun(s: State, block: Block)
    requires Inv(s) && s.pc == Checking(block) && Decide(s.blocks, Some(block)).Rollback?
    ensures Steps(s, [Check, CommitDelete, Revert]).Some?
    ensures var u := Steps(s, [Check, CommitDelete, Revert]).value;
            && u.pc == Idle && u.blocks == s.blocks - {block.number - 1}
            && TipFollows(s.localTip, Rollback(block.number - 1), u.blocks, u.localTip)
  {
    hide DbTip, IsTip, Linked;
    var last := block.number - 1;
    var deleting := s.(pc := Deleting(last));
    var t := s.blocks - {last};
    RollbackKeepsChain(s.blocks, last);
    assert Step(s, Check) == Some(deleting);
    assert Step(deleting, CommitDelete) == Some(State(s.localTip, t, Reverting));
    var tip := if s.localTip.None? || last == 0 then None else Some(last - 1);
    assert Step(State(s.localTip, t, Reverting), Revert) == Some(State(tip, t, Idle));
    hide Step;
    ThreeSteps(s, Check, CommitDelete, Revert);
  }

  lemma {:induction false} AskingThen(s: State, answer: Option<Block>, rest: seq<Event>)
    requires Inv(s) && s.pc == Idle && Honest(|s.blocks|, Ok(answer))
    ensures Steps(s, [Start] + ([Answer(answer)] + rest))
         == Steps(s.(pc := if answer.None? then Idle else Checking(answer.value)), rest)
  {
    hide Step, Inv;
    AskingRun(s, answer);
    FirstStep(s, Start, [Answer(answer)] + rest);
    FirstStep(s.(pc := Asking(|s.blocks|)), Answer(answer), rest);
  }

  /** What follows the answer. */
  ghost function Rest(a: Action): seq<Event> {
    match a
    case Wait => []
    case Append(_) => [Check, CommitStore, Bump]
    case Rollback(_) => [Check, CommitDelete, Revert]
  }

  lemma {:induction false} EventsInOrder(t: Table, answer: Option<Block>)
    requires Contiguous(t)
    ensures EventsOf(t, answer) == [Start] + ([Answer(answer)] + Rest(Decide(t, answer)))
  {
  }

  lemma {:induction false} CheckingHolds(s: State, answer: Option<Block>)
    requires Inv(s) && s.pc == Idle && Honest(|s.blocks|, Ok(answer)) && answer.Some?
    ensures Inv(s.(pc := Checking(answer.value)))
  {
  }

  lemma {:induction false} DecidedRun(s: State, block: Block)
    requires Inv(s) && s.pc == Checking(block)
    ensures var a := Decide(s.blocks, Some(block));
            && Steps(s, Rest(a)).Some?
            && var u := Steps(s, Rest(a)).value;
               && u.pc == Idle && u.blocks == Apply(s.blocks, a)
               && TipFollows(s.localTip, a, u.blocks, u.localTip)
  {
    var a := Decide(s.blocks, Some(block));
    assert Contiguous(s.blocks) && block.number == |s.blocks|;
    hide Step, Steps, TipFollows, Linked, Inv, IsChain, Contiguous, ChainOf;
    if a.Append? {
      AppendRun(s, block);
      assert Rest(a) == [Check, CommitStore, Bump];
    } else {
      RollbackRun(s, block);
      assert Rest(a) == [Check, CommitDelete, Revert];
    }
  }

  /** The state machine's uninterrupted run changes the database and the cached tip as `Runner.Insert` does. */
  lemma {:induction false} InsertIsRun(s: State, answer: Option<Block>)
    requires Inv(s) && s.pc == Idle && Honest(|s.blocks|, Ok(answer))
    ensures Steps(s, EventsOf(s.blocks, answer)).Some?
    ensures var u := Steps(s, EventsOf(s.blocks, answer)).value;
            && u.pc == Idle && u.blocks == Apply(s.blocks, Decide(s.blocks, answer))
            && TipFollows(s.localTip, Decide(s.blocks, answer), u.blocks, u.localTip)
  {
    EventsInOrder(s.blocks, answer);
    AskingThen(s, answer, Rest(Decide(s.blocks, answer)));
    if answer.Some? {
      CheckingHolds(s, answer);
      DecidedRun(s.(pc := Checking(answer.value)), answer.value);
    }
    hide Step, EventsOf, Inv, DbTip, IsTip, Linked, IsChain, Contiguous;
  }
}
