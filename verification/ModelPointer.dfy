/** The active-model pointers and their generation-numbered compare-and-swap. */
module ModelPointer {
  import opened Wrappers

  datatype Active = Active(model: nat, activatedAt: int, generation: nat)

  type Pointers = map<nat, Active>

  datatype SwapError = Changed(expected: Option<nat>, found: Option<nat>)

  datatype Call = Call(scope: nat, target: nat, expected: Option<nat>, at: int)

  predicate Wins(p: Pointers, c: Call) {
    if c.expected.None? then c.scope !in p
    else c.scope in p && p[c.scope].model == c.expected.value && c.target != c.expected.value
  }

  function ModelOf(p: Pointers, scope: nat): Option<nat> {
    if scope in p then Some(p[scope].model) else None
  }

  function GenerationOf(p: Pointers, scope: nat): nat {
    if scope in p then p[scope].generation else 0
  }

  function Swapped(p: Pointers, c: Call): Pointers {
    p[c.scope := Active(c.target, c.at, GenerationOf(p, c.scope) + 1)]
  }

  // The guarded insert or update of a call, one statement.
  function Write(p: Pointers, c: Call): Pointers {
    if Wins(p, c) then Swapped(p, c) else p
  }

  // The writes of any number of callers, in the order they commit.
  function Run(p: Pointers, calls: seq<Call>): Pointers
    decreases |calls|
  {
    if calls == [] then p else Run(Write(p, calls[0]), calls[1..])
  }

  // The answer of a call whose write met p and whose read, a second statement, meets q.
  function Answer(p: Pointers, q: Pointers, c: Call): Result<Active, SwapError> {
    if Wins(p, c) then Ok(Swapped(p, c)[c.scope])
    else if ModelOf(q, c.scope) == Some(c.target) then Ok(q[c.scope])
    else Err(Changed(c.expected, ModelOf(q, c.scope)))
  }

  class Repository {
    var pointers: Pointers

    constructor ()
      ensures pointers == map[]
    {
      pointers := map[];
    }

    // between are the calls of other sessions whose writes commit between the two statements.
    method CompareAndSwap(scope: nat, target: nat, expected: Option<nat>, at: int, between: seq<Call>)
      returns (answer: Result<Active, SwapError>)
      modifies this
      ensures var c := Call(scope, target, expected, at);
              && pointers == Run(Write(old(pointers), c), between)
              && answer == Answer(old(pointers), pointers, c)
    {
      var changed: Option<Active> := None;
      if expected.None? {
        if scope !in pointers {
          changed := Some(Active(target, at, 1));
        }
      } else if scope in pointers && pointers[scope].model == expected.value && pointers[scope].model != target {
        changed := Some(Active(target, at, pointers[scope].generation + 1));
      }
      if changed.Some? {
        pointers := pointers[scope := changed.value];
      }
      Interleave(between);
      if changed.Some? {
        return Ok(changed.value);
      }
      if scope in pointers && pointers[scope].model == target {
        return Ok(pointers[scope]);
      }
      return Err(Changed(expected, if scope in pointers then Some(pointers[scope].model) else None));
    }

    // Other sessions take their turn.
    method Interleave(calls: seq<Call>)
      modifies this
      ensures pointers == Run(old(pointers), calls)
    {
      for i := 0 to |calls|
        invariant Run(pointers, calls[i..]) == Run(old(pointers), calls)
      {
        assert calls[i..][1..] == calls[i + 1..];
        pointers := Write(pointers, calls[i]);
      }
    }
  }

  // The models that won a scope, in order, over a run.
  function Winners(p: Pointers, calls: seq<Call>, scope: nat): seq<nat>
    decreases |calls|
  {
    if calls == [] then []
    else
      (if calls[0].scope == scope && Wins(p, calls[0]) then [calls[0].target] else [])
      + Winners(Write(p, calls[0]), calls[1..], scope)
  }

  // A call wins a new generation of its scope or writes nothing, and it wins only where the
  // pointer is the one it expected.
  lemma WriteExactly(p: Pointers, c: Call)
    ensures var q := Write(p, c);
            && (Wins(p, c) <==> q != p)
            && (q != p <==> ModelOf(p, c.scope) == c.expected && c.expected != Some(c.target))
            && (q != p ==> q[c.scope].activatedAt == c.at)
            && (q != p ==> ModelOf(p, c.scope) == c.expected && ModelOf(q, c.scope) == Some(c.target)
                           && GenerationOf(q, c.scope) == GenerationOf(p, c.scope) + 1)
            && forall other | other != c.scope :: (other in q <==> other in p) && (other in p ==> q[other] == p[other])
  {
    if Wins(p, c) {
      assert GenerationOf(Swapped(p, c), c.scope) != GenerationOf(p, c.scope);
    }
  }

  // Whatever other callers commit between the two statements, a call succeeds exactly when it
  // won or its target is current when it reads; it names the generation it won, or the one it
  // read; and a conflict names what it read, never the target.
  lemma CallTrichotomy(p: Pointers, c: Call, between: seq<Call>)
    ensures var q := Run(Write(p, c), between);
            var answer := Answer(p, q, c);
            && (answer.Ok? <==> Wins(p, c) || ModelOf(q, c.scope) == Some(c.target))
            && (answer.Ok? ==> answer.value.model == c.target)
            && (Wins(p, c) ==> answer.value.generation == GenerationOf(p, c.scope) + 1)
            && (answer.Ok? && !Wins(p, c) ==> answer.value == q[c.scope] && Write(p, c) == p
                                              && answer.value.generation >= GenerationOf(p, c.scope))
            && (answer.Err? ==> Write(p, c) == p && answer.error == Changed(c.expected, ModelOf(q, c.scope))
                                && answer.error.found != Some(c.target))
  {
    GenerationsCountWins(Write(p, c), between, c.scope);
  }

  // A conflict reports the very model it expected exactly when the pointer was elsewhere at the
  // write and the last win before the read elected that model, which is not the call's target.
  // The model need never have been current before.
  lemma ConflictOnExpectedExactly(p: Pointers, c: Call, between: seq<Call>)
    ensures var answer := Answer(p, Run(Write(p, c), between), c);
            var winners := Winners(p, between, c.scope);
            answer.Err? && answer.error.found == c.expected <==>
              && c.expected.Some? && c.expected.value != c.target && ModelOf(p, c.scope) != c.expected
              && winners != [] && winners[|winners| - 1] == c.expected.value
  {
    GenerationsCountWins(Write(p, c), between, c.scope);
  }

  // Model 1 is current, another session activates 2 between the two statements of a swap from 2
  // to 3: the swap fails, naming 2 both as the model it expected and as the one it found.
  lemma ExpectedModelArrivesLate(at: int)
    ensures var p: Pointers := map[0 := Active(1, at, 1)];
            var late, other := Call(0, 3, Some(2), at), Call(0, 2, Some(1), at);
            Answer(p, Run(Write(p, late), [other]), late) == Err(Changed(Some(2), Some(2)))
  {
    var p: Pointers := map[0 := Active(1, at, 1)];
    ConflictOnExpectedExactly(p, Call(0, 3, Some(2), at), [Call(0, 2, Some(1), at)]);
  }

  // Over every interleaving a scope's generation grows by its number of wins, generation g + k
  // belongs to the k-th winner, and the current model is the last one.
  lemma {:induction false} GenerationsCountWins(p: Pointers, calls: seq<Call>, scope: nat)
    ensures var winners := Winners(p, calls, scope);
            var q := Run(p, calls);
            && GenerationOf(q, scope) == GenerationOf(p, scope) + |winners|
            && ModelOf(q, scope) == (if winners == [] then ModelOf(p, scope) else Some(winners[|winners| - 1]))
    decreases |calls|
  {
    if calls != [] {
      GenerationsCountWins(Write(p, calls[0]), calls[1..], scope);
    }
  }

  // Whatever is current after a prefix of the calls is the winner its generation names.
  lemma {:induction false} GenerationNamesWinner(p: Pointers, calls: seq<Call>, n: nat, scope: nat)
    requires n <= |calls|
    ensures var now := Run(p, calls[..n]);
            var k := GenerationOf(now, scope) - GenerationOf(p, scope);
            0 <= k <= |Winners(p, calls, scope)|
            && (k > 0 ==> ModelOf(now, scope) == Some(Winners(p, calls, scope)[k - 1]))
            && (k == 0 ==> ModelOf(now, scope) == ModelOf(p, scope))
    decreases |calls|
  {
    GenerationsCountWins(p, calls[..n], scope);
    WinnersPrefix(p, calls, n, scope);
  }

  lemma {:induction false} WinnersPrefix(p: Pointers, calls: seq<Call>, n: nat, scope: nat)
    requires n <= |calls|
    ensures Winners(p, calls[..n], scope) <= Winners(p, calls, scope)
    decreases |calls|
  {
    if n > 0 {
      assert calls[..n][1..] == calls[1..][..n - 1];
      WinnersPrefix(Write(p, calls[0]), calls[1..], n - 1, scope);
    }
  }

  // Neighbouring winners differ: no generation re-elects the model it replaces.
  lemma {:induction false} NeighboursDiffer(p: Pointers, calls: seq<Call>, scope: nat)
    ensures var winners := Winners(p, calls, scope);
            && (forall i | 0 < i < |winners| :: winners[i] != winners[i - 1])
            && (winners != [] ==> ModelOf(p, scope) != Some(winners[0]))
    decreases |calls|
  {
    if calls != [] {
      NeighboursDiffer(Write(p, calls[0]), calls[1..], scope);
    }
  }

  // Repeating a win whose target is still current writes nothing, and answers the target while
  // it stays current up to the read.
  lemma RetryKeepsGeneration(p: Pointers, c: Call, others: seq<Call>, between: seq<Call>)
    requires Wins(p, c)
    ensures var q := Run(Write(p, c), others);
            var r := Run(Write(q, c), between);
            ModelOf(q, c.scope) == Some(c.target) ==>
              Write(q, c) == q && (Answer(q, r, c).Ok? <==> ModelOf(r, c.scope) == Some(c.target))
  {
  }

  // A caller that read the pointer and swaps on it wins exactly when it is unchanged or came
  // back to the model that was read; generations tell the two apart.
  lemma ReturnTripExactly(p: Pointers, calls: seq<Call>, c: Call)
    requires c.scope in p && c.expected == Some(p[c.scope].model) && c.target != p[c.scope].model
    ensures var q := Run(p, calls);
            var winners := Winners(p, calls, c.scope);
            && (Wins(q, c) <==> winners == [] || winners[|winners| - 1] == p[c.scope].model)
            && (GenerationOf(q, c.scope) == GenerationOf(p, c.scope) <==> winners == [])
  {
    GenerationsCountWins(p, calls, c.scope);
  }
}
