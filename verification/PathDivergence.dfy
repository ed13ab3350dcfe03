/** When the schema-path walk of scripts/gen-config-catalog.ts goes round a cycle of aliases for ever. */
module PathDivergence {
  import opened Options
  import opened Exports
  import opened PathLookup
  import opened PathTermination

  /** One alias of a cycle: an indexed access to what a name of its file stands for. */
  datatype Turn = Turn(key: Key, name: string, fields: seq<string>)

  function Nest(fields: seq<string>, target: TypeNode): TypeNode {
    if fields == [] then target else Indexed(Nest(fields[..|fields| - 1], target), Some(fields[|fields| - 1]))
  }

  function Body(turn: Turn): Decl {
    Alias(Nest(turn.fields, Reference(turn.name, false, [])))
  }

  function GuardOf(turn: Turn, left: nat): Guard {
    Guard(turn.key.file, turn.key.name, left)
  }

  ghost predicate Links(world: World, turn: Turn, next: Turn) {
    DeclForTypeName(world, turn.key.file, turn.name) == Resolved(next.key.file, next.key.name, Body(next))
  }

  /** Each alias refers to the next, and the last to the first. */
  ghost predicate IsCycle(world: World, cycle: seq<Turn>) {
    && cycle != [] && Links(world, cycle[|cycle| - 1], cycle[0])
    && (forall i | 0 <= i < |cycle| - 1 :: Links(world, cycle[i], cycle[i + 1]))
    && forall i, j | 0 <= i < j < |cycle| :: cycle[i].key != cycle[j].key
  }

  /** The steps the first aliases add. */
  function Added(cycle: seq<Turn>, t: nat): nat
    requires t <= |cycle|
  {
    if t == 0 then 0 else Added(cycle, t - 1) + |cycle[t - 1].fields|
  }

  function Total(cycle: seq<Turn>): nat {
    Added(cycle, |cycle|)
  }

  function Rotate(cycle: seq<Turn>): seq<Turn>
    requires cycle != []
  {
    cycle[1..] + [cycle[0]]
  }

  lemma RotateIsCycle(world: World, cycle: seq<Turn>)
    requires IsCycle(world, cycle)
    ensures IsCycle(world, Rotate(cycle)) && Links(world, cycle[0], Rotate(cycle)[0])
  {
    var n, rotated := |cycle|, Rotate(cycle);
    forall i | 0 <= i < n - 1 ensures Links(world, rotated[i], rotated[i + 1]) {
      assert rotated[i] == cycle[i + 1];
      assert i + 2 < n ==> Links(world, cycle[i + 1], cycle[i + 2]);
    }
    if n > 1 { assert Links(world, cycle[0], cycle[1]); }
    forall i, j | 0 <= i < j < n ensures rotated[i].key != rotated[j].key {
      assert rotated[i] == cycle[i + 1];
      assert j < n - 1 ==> rotated[j] == cycle[j + 1];
    }
  }

  lemma {:induction false} AddedRotates(cycle: seq<Turn>, t: nat)
    requires t < |cycle|
    ensures |cycle[0].fields| + Added(Rotate(cycle), t) == Added(cycle, t + 1)
  {
    if t == 0 {
      assert Added(cycle, 1) == Added(cycle, 0) + |cycle[0].fields|;
    } else {
      AddedRotates(cycle, t - 1);
      assert Rotate(cycle)[t - 1] == cycle[t];
    }
  }

  lemma TotalRotates(cycle: seq<Turn>)
    requires cycle != []
    ensures Total(Rotate(cycle)) == Total(cycle)
  {
    var n := |cycle|;
    AddedRotates(cycle, n - 1);
    assert Rotate(cycle)[n - 1] == cycle[0];
  }

  // One turn of the walk.

  function FieldSteps(fields: seq<string>): (steps: seq<Step>)
    ensures |steps| == |fields|
  {
    if fields == [] then [] else FieldSteps(fields[..|fields| - 1]) + [Field(fields[|fields| - 1])]
  }

  /** An indexed access costs one call a field and hands its fields on as steps. */
  lemma {:induction false} NestDescends(world: World, mode: Mode, fuel: nat, file: FileId, fields: seq<string>,
                                        target: TypeNode, steps: seq<Step>, seen: set<Guard>)
    requires steps != []
    ensures LookupType(world, mode, fuel, file, Nest(fields, target), steps, seen) ==
            if fuel < |fields| then OutOfFuel
            else LookupType(world, mode, fuel - |fields|, file, target, FieldSteps(fields) + steps, seen)
  {
    if fields == [] {
      assert FieldSteps(fields) + steps == steps;
    } else {
      var n := |fields| - 1;
      var last := Field(fields[n]);
      assert PlanType(mode, Nest(fields, target), steps) == Descend(Nest(fields[..n], target), [last] + steps);
      if fuel > 0 {
        NestDescends(world, mode, fuel - 1, file, fields[..n], target, [last] + steps, seen);
        assert FieldSteps(fields[..n]) + ([last] + steps) == FieldSteps(fields) + steps;
      }
    }
  }

  lemma AliasTurns(world: World, mode: Mode, fuel: nat, turn: Turn, next: Turn, steps: seq<Step>, seen: set<Guard>)
    requires Links(world, turn, next) && steps != [] && GuardOf(turn, |steps|) !in seen
    ensures LookupDecl(world, mode, fuel, turn.key, Body(turn), steps, seen) ==
            if fuel < |turn.fields| + 2 then OutOfFuel
            else LookupDecl(world, mode, fuel - |turn.fields| - 2, next.key, Body(next),
                            FieldSteps(turn.fields) + steps, seen + {GuardOf(turn, |steps|)})
  {
    if fuel > 0 {
      var file, reference := turn.key.file, Reference(turn.name, false, []);
      var more, longer := seen + {GuardOf(turn, |steps|)}, FieldSteps(turn.fields) + steps;
      NestDescends(world, mode, fuel - 1, file, turn.fields, reference, steps, more);
      assert PlanType(mode, reference, longer) == ByName(turn.name);
      assert next.key == Key(next.key.file, next.key.name);
    }
  }

  /** No alias ahead is guarded at the number of steps the walk will bring, nor at more. */
  ghost predicate Unguarded(cycle: seq<Turn>, seen: set<Guard>, left: nat) {
    forall t, m: nat | 0 <= t < |cycle| && left + Added(cycle, t) <= m :: GuardOf(cycle[t], m) !in seen
  }

  lemma UnguardedTurns(world: World, cycle: seq<Turn>, seen: set<Guard>, left: nat)
    requires IsCycle(world, cycle) && Total(cycle) > 0 && Unguarded(cycle, seen, left)
    ensures Unguarded(Rotate(cycle), seen + {GuardOf(cycle[0], left)}, left + |cycle[0].fields|)
  {
    var n, rotated, more := |cycle|, Rotate(cycle), seen + {GuardOf(cycle[0], left)};
    forall t, m: nat | 0 <= t < n && left + |cycle[0].fields| + Added(rotated, t) <= m
      ensures GuardOf(rotated[t], m) !in more
    {
      AddedRotates(cycle, t);
      if t < n - 1 {
        assert rotated[t] == cycle[t + 1];
        assert GuardOf(cycle[t + 1], m) !in seen;
      } else {
        assert rotated[t] == cycle[0] && left + Total(cycle) <= m;
        assert Added(cycle, 0) == 0;
        assert GuardOf(cycle[0], m) !in seen;
      }
    }
  }

  /** A cycle with an indexed access is walked for ever. */
  lemma {:induction false} CycleDiverges(world: World, mode: Mode, fuel: nat, cycle: seq<Turn>, steps: seq<Step>,
                                         seen: set<Guard>)
    requires IsCycle(world, cycle) && Total(cycle) > 0 && steps != [] && Unguarded(cycle, seen, |steps|)
    ensures LookupDecl(world, mode, fuel, cycle[0].key, Body(cycle[0]), steps, seen) == OutOfFuel
  {
    var turn, rotated := cycle[0], Rotate(cycle);
    RotateIsCycle(world, cycle);
    assert Added(cycle, 0) == 0;
    assert GuardOf(cycle[0], |steps|) !in seen;
    AliasTurns(world, mode, fuel, turn, rotated[0], steps, seen);
    if fuel < |turn.fields| + 2 {
    } else {
      UnguardedTurns(world, cycle, seen, |steps|);
      TotalRotates(cycle);
      CycleDiverges(world, mode, fuel - |turn.fields| - 2, rotated, FieldSteps(turn.fields) + steps,
                    seen + {GuardOf(turn, |steps|)});
    }
  }

  lemma {:induction false} NothingAdded(cycle: seq<Turn>, t: nat, i: nat)
    requires i < t <= |cycle| && Added(cycle, t) == 0
    ensures cycle[i].fields == []
  {
    if i == t - 1 {
    } else {
      NothingAdded(cycle, t - 1, i);
    }
  }

  /** A cycle without one comes back to a guard: the last aliases of it are guarded already. */
  lemma {:induction false} CycleReturns(world: World, mode: Mode, cycle: seq<Turn>, behind: nat, steps: seq<Step>,
                                        seen: set<Guard>)
    returns (fuel: nat)
    requires IsCycle(world, cycle) && Total(cycle) == 0 && steps != [] && behind <= |cycle|
    requires forall t | |cycle| - behind <= t < |cycle| :: GuardOf(cycle[t], |steps|) in seen
    ensures LookupDecl(world, mode, fuel, cycle[0].key, Body(cycle[0]), steps, seen).Done?
    ensures LookupDecl(world, mode, fuel, cycle[0].key, Body(cycle[0]), steps, seen).value == Unknown
    decreases |cycle| - behind
  {
    var turn, rotated := cycle[0], Rotate(cycle);
    if GuardOf(turn, |steps|) in seen {
      fuel := 0;
    } else {
      var more := seen + {GuardOf(turn, |steps|)};
      RotateIsCycle(world, cycle);
      TotalRotates(cycle);
      NothingAdded(cycle, |cycle|, 0);
      assert FieldSteps(turn.fields) + steps == steps;
      forall t | |cycle| - (behind + 1) <= t < |cycle| ensures GuardOf(rotated[t], |steps|) in more {
        assert t < |cycle| - 1 ==> rotated[t] == cycle[t + 1];
      }
      fuel := CycleReturns(world, mode, rotated, behind + 1, steps, more);
      AliasTurns(world, mode, fuel + 2, turn, rotated[0], steps, seen);
      fuel := fuel + 2;
    }
  }

  /** Exactly: the walk of a path from an alias of a cycle ends iff no alias of the cycle is an indexed access. */
  lemma CycleEndsIff(world: World, mode: Mode, cycle: seq<Turn>, steps: seq<Step>)
    requires IsCycle(world, cycle) && steps != []
    ensures (exists fuel :: LookupDecl(world, mode, fuel, cycle[0].key, Body(cycle[0]), steps, {}) != OutOfFuel)
            <==> forall turn | turn in cycle :: turn.fields == []
  {
    if Total(cycle) == 0 {
      var fuel := CycleReturns(world, mode, cycle, 0, steps, {});
      assert LookupDecl(world, mode, fuel, cycle[0].key, Body(cycle[0]), steps, {}) != OutOfFuel;
      forall turn | turn in cycle ensures turn.fields == [] {
        var i :| 0 <= i < |cycle| && cycle[i] == turn;
        NothingAdded(cycle, |cycle|, i);
      }
    } else {
      forall fuel ensures LookupDecl(world, mode, fuel, cycle[0].key, Body(cycle[0]), steps, {}) == OutOfFuel {
        CycleDiverges(world, mode, fuel, cycle, steps, {});
      }
      SomethingAdded(cycle, |cycle|);
    }
  }

  lemma {:induction false} SomethingAdded(cycle: seq<Turn>, t: nat)
    requires t <= |cycle| && Added(cycle, t) > 0
    ensures exists turn | turn in cycle :: turn.fields != []
  {
    if cycle[t - 1].fields != [] {
      assert cycle[t - 1] in cycle;
    } else {
      SomethingAdded(cycle, t - 1);
    }
  }

  /** So in a world with a potential no cycle of aliases holds an indexed access. */
  lemma BoundedCyclesAddNothing(world: World, mode: Mode, potential: Potential, cycle: seq<Turn>)
    requires IsCycle(world, cycle) && Bounded(world, mode, potential)
    ensures forall turn | turn in cycle :: turn.fields == []
  {
    var steps, last := [Element], cycle[|cycle| - 1];
    assert Declares(world, cycle[0].key) == Some(Body(cycle[0])) by {
      assert DeclForTypeName(world, last.key.file, last.name).Resolved?;
    }
    var fuel := DeclEnds(world, potential, mode, 1 + potential(cycle[0].key), cycle[0].key, Body(cycle[0]), steps, {});
    CycleEndsIff(world, mode, cycle, steps);
  }
}
