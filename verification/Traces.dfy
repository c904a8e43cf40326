/** Sequences of moves of a state machine, and the states they lead to. */
module Traces {

  function Run<S, M>(step: (S, M) -> S, s: S, moves: seq<M>): S
    decreases moves
  {
    if moves == [] then s else Run(step, step(s, moves[0]), moves[1..])
  }

  ghost predicate Reachable<S(!new), M(!new)>(step: (S, M) -> S, start: S, s: S) {
    exists moves: seq<M> :: Run(step, start, moves) == s
  }

  lemma {:induction false} RunThen<S, M>(step: (S, M) -> S, s: S, moves: seq<M>, m: M)
    ensures Run(step, s, moves + [m]) == step(Run(step, s, moves), m)
    decreases moves
  {
    if moves == [] {
      assert [m][1..] == [];
    } else {
      assert (moves + [m])[1..] == moves[1..] + [m];
      RunThen(step, step(s, moves[0]), moves[1..], m);
    }
  }

  lemma StartReachable<S(!new), M(!new)>(step: (S, M) -> S, start: S)
    ensures Reachable(step, start, start)
  {
    var none: seq<M> := [];
    assert Run(step, start, none) == start;
  }

  lemma Then<S(!new), M(!new)>(step: (S, M) -> S, start: S, s: S, m: M) returns (s': S)
    requires Reachable(step, start, s)
    ensures s' == step(s, m) && Reachable(step, start, s')
  {
    var moves: seq<M> :| Run(step, start, moves) == s;
    RunThen(step, start, moves, m);
    s' := step(s, m);
    assert Run(step, start, moves + [m]) == s';
  }
}
