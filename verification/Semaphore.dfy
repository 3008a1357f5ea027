/** Semaphores: each critical section is one step. */
module Semaphore {

  import opened Tally

  datatype Sem = Sem(count: nat, waiting: seq<Tid>)

  predicate Available(s: Sem) { s.count > 0 }

  /** down: take a unit, or queue behind everyone already waiting. */
  function Down(s: Sem, t: Tid): Sem {
    if s.count > 0 then s.(count := s.count - 1) else s.(waiting := s.waiting + [t])
  }

  /** up: hand the unit to the longest waiter, or bank it. */
  function Up(s: Sem): Sem {
    if s.waiting == [] then s.(count := s.count + 1) else s.(waiting := s.waiting[1..])
  }

  /** The longest waiter of `s`, if there is one, moves on to point `p`. */
  function HandTo<P>(at: map<Tid, P>, s: Sem, p: P): map<Tid, P> {
    if s.waiting != [] then at[s.waiting[0] := p] else at
  }

  /** No unit is banked while someone waits. */
  predicate NoIdleUnit(s: Sem) { s.count > 0 ==> s.waiting == [] }

  // ---------------------------------------------------------------- runs

  datatype Op = DownOp(t: Tid) | UpOp

  /** A semaphore with its history: units added, units granted at once, who blocked and who was woken, in order. */
  datatype Log = Log(sem: Sem, ups: nat, immediate: nat, blocked: seq<Tid>, woken: seq<Tid>)

  function Record(l: Log, op: Op): Log {
    match op
    case DownOp(t) =>
      if Available(l.sem) then l.(sem := Down(l.sem, t), immediate := l.immediate + 1)
      else l.(sem := Down(l.sem, t), blocked := l.blocked + [t])
    case UpOp =>
      if l.sem.waiting == [] then l.(sem := Up(l.sem), ups := l.ups + 1)
      else l.(sem := Up(l.sem), ups := l.ups + 1, woken := l.woken + [l.sem.waiting[0]])
  }

  function Replay(initial: nat, ops: seq<Op>): Log {
    if ops == [] then Log(Sem(initial, []), 0, 0, [], [])
    else Record(Replay(initial, ops[..|ops| - 1]), ops[|ops| - 1])
  }

  /** Units are conserved, none is banked past a waiter, and waiters are woken in arrival order. */
  ghost predicate Fair(initial: nat, l: Log) {
    && initial + l.ups == l.sem.count + l.immediate + |l.woken|
    && NoIdleUnit(l.sem)
    && l.blocked == l.woken + l.sem.waiting
  }

  lemma RecordKeeps(initial: nat, l: Log, op: Op)
    requires Fair(initial, l)
    ensures Fair(initial, Record(l, op))
  {
    var w := l.sem.waiting;
    if op.UpOp? && w != [] {
      assert l.woken + w == l.woken + [w[0]] + w[1..];
    }
  }

  /** Every reachable state of every semaphore, whatever the order of the calls. */
  lemma {:induction false} HandOff(initial: nat, ops: seq<Op>)
    ensures Fair(initial, Replay(initial, ops))
  {
    if ops != [] {
      HandOff(initial, ops[..|ops| - 1]);
      RecordKeeps(initial, Replay(initial, ops[..|ops| - 1]), ops[|ops| - 1]);
    }
  }
}
