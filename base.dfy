/** Shared vocabulary of the model: bytes, Go's nilable `error`, and the
    early-return close chains that several components share. */
module Base {

  type byte = bv8
  type Bytes = seq<byte>

  datatype Option<+T> = None | Some(value: T)

  /** An error value reported by a collaborator whose code is not modelled.
      `Option<Error>` plays the role of Go's `error`: `None` is `nil`. */
  datatype Error = Error(code: nat)

  /** One call in a chain of `Close` calls: the object being closed and what
      its close reports. */
  datatype Step = Step(target: object, fault: Option<Error>)

  /** What a chain of closes returns, with the objects whose close was called,
      in call order. */
  datatype ChainResult = ChainResult(err: Option<Error>, closed: seq<object>)

  /** The Go idiom `if err := x.Close(); err != nil { return err }` repeated
      over `steps`: call each close in turn and stop at the first error. */
  function RunChain(steps: seq<Step>): (r: ChainResult)
  {
    if steps == [] then ChainResult(None, [])
    else if steps[0].fault.Some? then ChainResult(steps[0].fault, [steps[0].target])
    else
      var rest := RunChain(steps[1..]);
      ChainResult(rest.err, [steps[0].target] + rest.closed)
  }

  /** The objects of a list of steps, in order. */
  function Targets(steps: seq<Step>): (ts: seq<object>)
    ensures |ts| == |steps|
    ensures forall i :: 0 <= i < |steps| ==> ts[i] == steps[i].target
  {
    if steps == [] then [] else [steps[0].target] + Targets(steps[1..])
  }

  /** Index of the first failing step, or |steps| when every step succeeds. */
  function FirstFault(steps: seq<Step>): (n: nat)
    ensures n <= |steps|
    ensures forall j :: 0 <= j < n ==> steps[j].fault.None?
    ensures n < |steps| ==> steps[n].fault.Some?
  {
    if steps == [] then 0
    else if steps[0].fault.Some? then 0
    else 1 + FirstFault(steps[1..])
  }

  /** A chain stops exactly at its first failing step: it reports that step's
      error, and the closes called are those of the steps up to and including
      it; when no step fails it reports nil and every close was called. */
  lemma {:induction false} RunChainFirstFault(steps: seq<Step>)
    ensures var n := FirstFault(steps);
      && (RunChain(steps).err.None? <==> n == |steps|)
      && (n < |steps| ==> RunChain(steps).err == steps[n].fault
                          && RunChain(steps).closed == Targets(steps[..n + 1]))
      && (n == |steps| ==> RunChain(steps).closed == Targets(steps))
  {
    if steps != [] && steps[0].fault.None? {
      RunChainFirstFault(steps[1..]);
      var n := FirstFault(steps);
      if n < |steps| {
        assert steps[1..][..n - 1 + 1] == steps[1..n + 1];
        assert Targets(steps[..n + 1]) == [steps[0].target] + Targets(steps[1..n + 1]) by {
          assert steps[..n + 1][1..] == steps[1..n + 1];
        }
      }
    } else if steps != [] {
      assert Targets(steps[..1]) == [steps[0].target];
    }
  }

  /** Running two chains one after the other is one chain over both lists;
      the second runs only when the first reported nil. */
  lemma {:induction false} RunChainAppend(a: seq<Step>, b: seq<Step>)
    ensures RunChain(a + b) ==
      if RunChain(a).err.Some? then RunChain(a)
      else ChainResult(RunChain(b).err, RunChain(a).closed + RunChain(b).closed)
  {
    if a == [] {
      assert a + b == b;
    } else {
      assert (a + b)[0] == a[0];
      assert (a + b)[1..] == a[1..] + b;
      RunChainAppend(a[1..], b);
    }
  }

  /** One more step at the end of a chain runs only when the chain so far
      succeeded. */
  lemma RunChainSnoc(a: seq<Step>, s: Step)
    ensures RunChain(a + [s]) ==
      if RunChain(a).err.Some? then RunChain(a)
      else ChainResult(s.fault, RunChain(a).closed + [s.target])
  {
    RunChainAppend(a, [s]);
    assert [s][1..] == [];
  }

  /** A chain in which no step fails reports nil and calls every close. */
  lemma NoFaultChain(steps: seq<Step>)
    requires forall i :: 0 <= i < |steps| ==> steps[i].fault.None?
    ensures RunChain(steps) == ChainResult(None, Targets(steps))
  {
    RunChainFirstFault(steps);
  }
}
