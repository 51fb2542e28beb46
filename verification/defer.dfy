/**
 * Defer (Source/common/Defer.h): runs a cleanup block on destruction unless
 * it was cancelled, already executed, or moved out.
 *
 * A block is identified by a `Block` value; running it is reported as the
 * block a call returns, so that "ran at most once" can be stated over a log.
 */
module Defer {
  import opened Wrappers

  /** The identity of one cleanup callable. */
  type Block = nat

  /** The state of one Defer object: its block and `should_execute_`. */
  datatype Slot = Slot(block: Block, armed: bool)

  /** The block a run of the destructor (or of Execute) calls, if any. */
  function Fire(s: Slot): (r: Option<Block>)
    ensures r.Some? <==> s.armed
    ensures r.Some? ==> r.value == s.block
  {
    if s.armed then Some(s.block) else None
  }

  class Defer {
    var cleanupBlock: Block
    var shouldExecute: bool

    function State(): Slot
      reads this
    {
      Slot(cleanupBlock, shouldExecute)
    }

    /** `explicit Defer(F&& block)`: armed with the given block. */
    constructor (block: Block)
      ensures cleanupBlock == block && shouldExecute
    {
      cleanupBlock := block;
      shouldExecute := true;
    }

    /** `~Defer()`: runs the block exactly when it is still armed. */
    method Destroy() returns (ran: Option<Block>)
      ensures ran == Fire(State())
      ensures ran.Some? <==> shouldExecute
    {
      if shouldExecute {
        ran := Some(cleanupBlock);
      } else {
        ran := None;
      }
    }

    /** The move constructor: takes over `other`'s block and pending run and disarms `other`. */
    constructor Move(other: Defer)
      modifies other
      ensures State() == old(other.State())
      ensures other.State() == old(other.State()).(armed := false)
    {
      cleanupBlock := other.cleanupBlock;
      shouldExecute := other.shouldExecute;
      other.shouldExecute := false;
    }

    /**
     * Move assignment: unless `other` is this object, first run this
     * object's pending block, then take over `other`'s block and pending run
     * and disarm `other`.
     */
    method MoveAssign(other: Defer) returns (ran: Option<Block>)
      modifies this, other
      ensures other == this ==> ran == None && State() == old(State())
      ensures other != this ==> ran == Fire(old(State()))
      ensures other != this ==> State() == old(other.State())
      ensures other != this ==> other.State() == old(other.State()).(armed := false)
    {
      ran := None;
      if this != other {
        if shouldExecute {
          ran := Some(cleanupBlock);
        }
        cleanupBlock := other.cleanupBlock;
        shouldExecute := other.shouldExecute;
        other.shouldExecute := false;
      }
    }

    /** `Cancel()`: the block will not run. */
    method Cancel()
      modifies this
      ensures State() == old(State()).(armed := false)
    {
      shouldExecute := false;
    }

    /** `Execute()`: run the block now if armed, and never again. */
    method Execute() returns (ran: Option<Block>)
      modifies this
      ensures ran == Fire(old(State()))
      ensures State() == old(State()).(armed := false)
    {
      ran := None;
      if shouldExecute {
        ran := Some(cleanupBlock);
        shouldExecute := false;
      }
    }
  }

  /*
   * Many Defer objects over time. Objects are named by `ObjId`; every
   * construction takes a block never seen before; `ran` logs every block run.
   */

  type ObjId = nat

  datatype World = World(objects: map<ObjId, Slot>, nextBlock: Block, ran: seq<Block>)

  datatype Op =
    | OpConstruct(id: ObjId)
    | OpDestroy(id: ObjId)
    | OpExecute(id: ObjId)
    | OpCancel(id: ObjId)
    | OpMoveConstruct(dst: ObjId, src: ObjId)
    | OpMoveAssign(dst: ObjId, src: ObjId)

  /** The log entry a run leaves. */
  function Logged(r: Option<Block>): seq<Block> {
    if r.Some? then [r.value] else []
  }

  const Init: World := World(map[], 0, [])

  /**
   * One operation on the world; an operation on a missing object (or a
   * construction over a live one) changes nothing. The log only grows, by at
   * most one block, and fresh blocks are never reused.
   */
  function Step(w: World, op: Op): (r: World)
    ensures |w.ran| <= |r.ran| <= |w.ran| + 1 && r.ran[..|w.ran|] == w.ran
    ensures w.nextBlock <= r.nextBlock
  {
    match op
    case OpConstruct(id) =>
      if id in w.objects then w
      else w.(objects := w.objects[id := Slot(w.nextBlock, true)], nextBlock := w.nextBlock + 1)
    case OpDestroy(id) =>
      if id !in w.objects then w
      else w.(objects := w.objects - {id}, ran := w.ran + Logged(Fire(w.objects[id])))
    case OpExecute(id) =>
      if id !in w.objects then w
      else w.(objects := w.objects[id := w.objects[id].(armed := false)],
              ran := w.ran + Logged(Fire(w.objects[id])))
    case OpCancel(id) =>
      if id !in w.objects then w
      else w.(objects := w.objects[id := w.objects[id].(armed := false)])
    case OpMoveConstruct(dst, src) =>
      if dst in w.objects || src !in w.objects then w
      else w.(objects := w.objects[dst := w.objects[src]][src := w.objects[src].(armed := false)])
    case OpMoveAssign(dst, src) =>
      if dst !in w.objects || src !in w.objects || dst == src then w
      else w.(objects := w.objects[dst := w.objects[src]][src := w.objects[src].(armed := false)],
              ran := w.ran + Logged(Fire(w.objects[dst])))
  }

  function Run(w: World, ops: seq<Op>): World
    decreases |ops|
  {
    if ops == [] then w else Run(Step(w, ops[0]), ops[1..])
  }

  predicate NoDuplicates(s: seq<Block>) {
    forall i, j | 0 <= i < j < |s| :: s[i] != s[j]
  }

  /**
   * The world invariant: the log has no repeats, every block seen is older
   * than `nextBlock`, an armed block has not run yet and no two live objects
   * are armed with the same block.
   */
  ghost predicate Inv(w: World) {
    && NoDuplicates(w.ran)
    && (forall b | b in w.ran :: b < w.nextBlock)
    && (forall id | id in w.objects :: w.objects[id].block < w.nextBlock)
    && (forall id | id in w.objects && w.objects[id].armed :: w.objects[id].block !in w.ran)
    && (forall id1, id2 | id1 in w.objects && id2 in w.objects && id1 != id2
          && w.objects[id1].armed && w.objects[id2].armed :: w.objects[id1].block != w.objects[id2].block)
  }

  lemma AppendFresh(s: seq<Block>, b: Block)
    requires NoDuplicates(s) && b !in s
    ensures NoDuplicates(s + [b])
  {
  }

  /** Moving `src`'s slot to `dst` and disarming `src` keeps the armed blocks distinct and unrun. */
  lemma MovePreservesInv(w: World, dst: ObjId, src: ObjId, ran: seq<Block>)
    requires Inv(w) && src in w.objects && dst != src
    requires NoDuplicates(ran) && (forall b | b in ran :: b < w.nextBlock)
    requires forall id | id in w.objects && id != dst && w.objects[id].armed :: w.objects[id].block !in ran
    ensures Inv(w.(objects := w.objects[dst := w.objects[src]][src := w.objects[src].(armed := false)], ran := ran))
  {
    var objs := w.objects[dst := w.objects[src]][src := w.objects[src].(armed := false)];
    forall id1, id2 | id1 in objs && id2 in objs && id1 != id2 && objs[id1].armed && objs[id2].armed
      ensures objs[id1].block != objs[id2].block
    {
      assert id1 != src && id2 != src;
      if id1 == dst {
        assert objs[id1] == w.objects[src] && objs[id2] == w.objects[id2];
      } else if id2 == dst {
        assert objs[id2] == w.objects[src] && objs[id1] == w.objects[id1];
      }
    }
  }

  lemma StepPreservesInv(w: World, op: Op)
    requires Inv(w)
    ensures Inv(Step(w, op))
  {
    match op
    case OpConstruct(id) =>
    case OpDestroy(id) =>
      if id in w.objects && w.objects[id].armed {
        AppendFresh(w.ran, w.objects[id].block);
      }
    case OpExecute(id) =>
      if id in w.objects && w.objects[id].armed {
        AppendFresh(w.ran, w.objects[id].block);
      }
    case OpCancel(id) =>
    case OpMoveConstruct(dst, src) =>
      if dst !in w.objects && src in w.objects {
        MovePreservesInv(w, dst, src, w.ran);
      }
    case OpMoveAssign(dst, src) =>
      if dst in w.objects && src in w.objects && dst != src {
        var ran := w.ran + Logged(Fire(w.objects[dst]));
        if w.objects[dst].armed {
          AppendFresh(w.ran, w.objects[dst].block);
        }
        MovePreservesInv(w, dst, src, ran);
      }
  }

  /** From no objects, any sequence of Defer operations runs each block at most once. */
  lemma {:induction false} EachBlockRunsAtMostOnce(ops: seq<Op>)
    ensures NoDuplicates(Run(Init, ops).ran)
  {
    RunPreservesInv(Init, ops);
  }

  lemma {:induction false} RunPreservesInv(w: World, ops: seq<Op>)
    requires Inv(w)
    ensures Inv(Run(w, ops))
    decreases |ops|
  {
    if ops != [] {
      StepPreservesInv(w, ops[0]);
      RunPreservesInv(Step(w, ops[0]), ops[1..]);
    }
  }

  /** The objects an operation names. */
  function Targets(op: Op): set<ObjId> {
    match op
    case OpConstruct(id) => {id}
    case OpDestroy(id) => {id}
    case OpExecute(id) => {id}
    case OpCancel(id) => {id}
    case OpMoveConstruct(dst, src) => {dst, src}
    case OpMoveAssign(dst, src) => {dst, src}
  }

  /**
   * Each step of the world is the matching `Defer` member on the named
   * objects: the same `Fire` of the old slot goes to the log, the same
   * disarmed or taken-over slots result, and objects the operation does not
   * name are untouched.
   */
  lemma StepAgreesWithDefer(w: World, op: Op)
    ensures var w' := Step(w, op);
            forall id | id in w.objects && id !in Targets(op) :: id in w'.objects && w'.objects[id] == w.objects[id]
    ensures op.OpConstruct? && op.id !in w.objects ==>
              Step(w, op).objects[op.id] == Slot(w.nextBlock, true) && Step(w, op).ran == w.ran
    ensures op.OpDestroy? && op.id in w.objects ==>
              op.id !in Step(w, op).objects && Step(w, op).ran == w.ran + Logged(Fire(w.objects[op.id]))
    ensures op.OpExecute? && op.id in w.objects ==>
              && Step(w, op).objects[op.id] == w.objects[op.id].(armed := false)
              && Step(w, op).ran == w.ran + Logged(Fire(w.objects[op.id]))
    ensures op.OpCancel? && op.id in w.objects ==>
              Step(w, op).objects[op.id] == w.objects[op.id].(armed := false) && Step(w, op).ran == w.ran
    ensures op.OpMoveConstruct? && op.dst !in w.objects && op.src in w.objects ==>
              && Step(w, op).objects[op.dst] == w.objects[op.src]
              && Step(w, op).objects[op.src] == w.objects[op.src].(armed := false)
              && Step(w, op).ran == w.ran
    ensures op.OpMoveAssign? && op.dst in w.objects && op.src in w.objects ==>
              if op.dst == op.src then Step(w, op) == w
              else
                && Step(w, op).objects[op.dst] == w.objects[op.src]
                && Step(w, op).objects[op.src] == w.objects[op.src].(armed := false)
                && Step(w, op).ran == w.ran + Logged(Fire(w.objects[op.dst]))
  {
  }

  /**
   * A block that has not run, was handed out already and is held by no
   * armed object: nothing can run it any more.
   */
  ghost predicate Dead(w: World, b: Block) {
    && b !in w.ran
    && b < w.nextBlock
    && (forall id | id in w.objects && w.objects[id].armed :: w.objects[id].block != b)
  }

  lemma StepKeepsDead(w: World, op: Op, b: Block)
    requires Dead(w, b)
    ensures Dead(Step(w, op), b)
  {
    match op
    case OpConstruct(id) =>
    case OpDestroy(id) =>
    case OpExecute(id) =>
    case OpCancel(id) =>
    case OpMoveConstruct(dst, src) =>
      if dst !in w.objects && src in w.objects {
        var objs := Step(w, op).objects;
        forall id | id in objs && objs[id].armed ensures objs[id].block != b {
          if id == dst {
            assert objs[id] == w.objects[src];
          }
        }
      }
    case OpMoveAssign(dst, src) =>
      if dst in w.objects && src in w.objects && dst != src {
        var objs := Step(w, op).objects;
        forall id | id in objs && objs[id].armed ensures objs[id].block != b {
          if id == dst {
            assert objs[id] == w.objects[src];
          }
        }
      }
  }

  lemma {:induction false} RunKeepsDead(w: World, ops: seq<Op>, b: Block)
    requires Dead(w, b)
    ensures Dead(Run(w, ops), b)
    decreases |ops|
  {
    if ops != [] {
      StepKeepsDead(w, ops[0], b);
      RunKeepsDead(Step(w, ops[0]), ops[1..], b);
    }
  }

  /**
   * Once an armed object is cancelled, its block never runs, whatever
   * operations follow. (A disarmed object's block may still run: a move
   * hands it to another object, which Cancel on the moved-from object does
   * not affect.)
   */
  lemma CancelledNeverRuns(w: World, id: ObjId, ops: seq<Op>)
    requires Inv(w) && id in w.objects
    ensures w.objects[id].armed ==> w.objects[id].block !in Run(Step(w, OpCancel(id)), ops).ran
  {
    if w.objects[id].armed {
      RunKeepsDead(Step(w, OpCancel(id)), ops, w.objects[id].block);
    }
  }
}
