/**
  The graph-partition pass of `vllm/env_override.py`: a walk over the scheduler's
  partitions from last to first that decides which buffers each partition takes in,
  which it frees and which it hands back.

  Buffers are known by name only. A name may be an alias: a mutation output that
  stands for a real buffer it writes in place.
 */
module PartitionSignatures {
  import opened Common

  type Name = string

  datatype Buffer = Buffer(noneLayout: bool, mutationOutput: bool)

  /** What the pass reads of the scheduler and of the graph. Which symbols a partition needs besides
      its input nodes is the scheduler's own affair. */
  datatype Scheduler = Scheduler(
    nameToBuf: map<Name, Buffer>,
    mutationRealName: map<Name, Name>,
    nameToNode: set<Name>,
    constants: set<Name>,
    graphOutputs: set<Name>,
    symbolInputs: (Partition, set<Name>) -> set<Name>)

  datatype Node = Node(outputs: set<Name>, readNames: set<Name>, writtenNames: set<Name>, lastUsage: set<Name>)

  type Partition = seq<Node>

  datatype Signature = Signature(
    symbolInputs: set<Name>,
    inputNodes: set<Name>,
    outputNodes: set<Name>,
    inputDeallocation: map<Name, bool>,
    skipCudagraph: bool,
    constantNames: set<Name>)

  // ---------- Layouts and aliases ----------

  /** Follows a chain of mutation outputs to its end. `None` stands for a chain that comes
      back to a name in `seen`, on which the source recurses for ever. */
  function NoneLayout(s: Scheduler, name: Name, seen: set<Name>): Option<bool>
    decreases s.mutationRealName.Keys - seen
  {
    if name !in s.nameToBuf || !s.nameToBuf[name].noneLayout then Some(false)
    else if !s.nameToBuf[name].mutationOutput || name !in s.mutationRealName
            || s.mutationRealName[name] == "" then Some(true)
    else if name in seen then None
    else NoneLayout(s, s.mutationRealName[name], seen + {name})
  }

  predicate Diverges(s: Scheduler, name: Name) {
    NoneLayout(s, name, {}).None?
  }

  predicate IsNoneLayout(s: Scheduler, name: Name) {
    NoneLayout(s, name, {}) == Some(true)
  }

  function Real(s: Scheduler, name: Name): Name {
    if name in s.mutationRealName then s.mutationRealName[name] else name
  }

  function RealNames(s: Scheduler, names: set<Name>): set<Name> {
    set x | x in names :: Real(s, x)
  }

  // ---------- What one partition touches ----------

  function Defined(p: Partition): set<Name> { set n, x | n in p && x in n.outputs :: x }

  function Accessed(p: Partition): set<Name> { set n, x | n in p && x in n.readNames + n.writtenNames :: x }

  function Freed(p: Partition): set<Name> { set n, x | n in p && x in n.lastUsage :: x }

  /** Accessed names that stand for an allocated buffer. */
  function Allocated(s: Scheduler, p: Partition): set<Name> {
    set x | x in Accessed(p) && !IsNoneLayout(s, x)
  }

  // ---------- One backward step ----------

  function Inputs(s: Scheduler, p: Partition): set<Name> {
    RealNames(s, Allocated(s, p) - Defined(p)) + (Freed(p) - Defined(p)) * s.nameToNode
  }

  /** Own definitions that something downstream still wants, and inputs that stay alive. */
  function Returned(s: Scheduler, p: Partition, unmet: set<Name>): set<Name> {
    RealNames(s, Defined(p) * unmet + (Inputs(s, p) * s.nameToNode - Freed(p)))
  }

  function Step(s: Scheduler, p: Partition, unmet: set<Name>): set<Name> {
    Inputs(s, p) + (unmet - Returned(s, p, unmet))
  }

  /** The step raises nothing: no alias chain is endless, and every returned buffer has a node. */
  predicate StepSucceeds(s: Scheduler, p: Partition, unmet: set<Name>) {
    && (forall x <- Accessed(p) :: !Diverges(s, x))
    && (forall x <- Returned(s, p, unmet) :: !Diverges(s, x) && (IsNoneLayout(s, x) || x in s.nameToNode))
  }

  function SignatureOf(s: Scheduler, p: Partition, skip: bool, unmet: set<Name>): Signature {
    var inputs := Inputs(s, p);
    Signature(s.symbolInputs(p, inputs * s.nameToNode),
              inputs * s.nameToNode,
              set x | x in Returned(s, p, unmet) && !IsNoneLayout(s, x),
              map x | x in inputs * s.nameToNode :: x in Freed(p),
              skip,
              inputs * s.constants)
  }

  /** `unmet_output_names` once partitions `i` and later have been processed. */
  function Unmet(s: Scheduler, ps: seq<Partition>, i: nat): set<Name>
    requires i <= |ps|
    decreases |ps| - i
  {
    if i == |ps| then s.graphOutputs else Step(s, ps[i], Unmet(s, ps, i + 1))
  }

  /** The signatures of partitions `i` and later, in partition order. */
  function Signatures(s: Scheduler, ps: seq<Partition>, skips: seq<bool>, i: nat): seq<Signature>
    requires i <= |ps| == |skips|
    decreases |ps| - i
  {
    if i == |ps| then []
    else [SignatureOf(s, ps[i], skips[i], Unmet(s, ps, i + 1))] + Signatures(s, ps, skips, i + 1)
  }

  predicate Succeeds(s: Scheduler, ps: seq<Partition>, i: nat)
    requires i <= |ps|
    decreases |ps| - i
  {
    i == |ps| || (Succeeds(s, ps, i + 1) && StepSucceeds(s, ps[i], Unmet(s, ps, i + 1)))
  }

  // ---------- The pass itself ----------

  method CollectNames(s: Scheduler, p: Partition)
    returns (defined: set<Name>, accessed: set<Name>, freed: set<Name>)
    ensures defined == Defined(p) && accessed == Accessed(p) && freed == Freed(p)
  {
    defined, accessed, freed := {}, {}, {};
    for k := 0 to |p|
      invariant defined == Defined(p[..k])
      invariant accessed == Accessed(p[..k])
      invariant freed == Freed(p[..k])
    {
      assert p[..k + 1] == p[..k] + [p[k]];
      defined := defined + p[k].outputs;
      accessed := accessed + (p[k].readNames + p[k].writtenNames);
      freed := freed + p[k].lastUsage;
    }
    assert p[..|p|] == p;
  }

  /** Accessed names that stand for allocated buffers made elsewhere, under their real names, and
      buffers to free that were made elsewhere. */
  method PartitionInputs(s: Scheduler, ghost p: Partition, defined: set<Name>, accessed: set<Name>, freed: set<Name>)
    returns (inputs: set<Name>)
    requires defined == Defined(p) && accessed == Accessed(p) && freed == Freed(p)
    ensures inputs == Inputs(s, p)
  {
    inputs := set x | x in accessed && !IsNoneLayout(s, x);
    inputs := inputs - defined;
    inputs := set x | x in inputs :: Real(s, x);
    inputs := inputs + (set x | x in freed - defined && x in s.nameToNode);
  }

  /** One turn of the backward loop; `None` when an exception is raised. */
  method SignPartition(s: Scheduler, p: Partition, skip: bool, unmet: set<Name>)
    returns (sig: Option<Signature>, unmet': set<Name>)
    ensures sig.Some? <==> StepSucceeds(s, p, unmet)
    ensures sig.Some? ==> sig.value == SignatureOf(s, p, skip, unmet) && unmet' == Step(s, p, unmet)
    ensures sig.Some? ==> Describes(s, p, skip, unmet, sig.value)
  {
    hide Defined, Accessed, Freed, Inputs, IsNoneLayout, Diverges, Describes;
    SignatureDescribes(s, p, skip, unmet);
    var defined, accessed, freed := CollectNames(s, p);
    var returned := defined * unmet;
    if exists x <- accessed :: Diverges(s, x) { return None, unmet; }
    var inputs := PartitionInputs(s, p, defined, accessed, freed);
    var inputNodes := set x | x in inputs && x in s.nameToNode;
    assert inputNodes == inputs * s.nameToNode;
    var deallocation := map x | x in inputs && x in s.nameToNode :: x in freed;
    returned := returned + set x | x in inputs && x in s.nameToNode && x !in freed;
    assert returned == defined * unmet + (inputs * s.nameToNode - freed);
    returned := set x | x in returned :: Real(s, x);
    assert returned == Returned(s, p, unmet);
    if exists x <- returned :: Diverges(s, x) || (!IsNoneLayout(s, x) && x !in s.nameToNode) {
      return None, unmet;
    }
    var outputNodes := set x | x in returned && !IsNoneLayout(s, x);
    var constantNames := set x | x in inputs && x in s.constants;
    sig := Some(Signature(s.symbolInputs(p, inputNodes), inputNodes, outputNodes, deallocation, skip, constantNames));
    unmet' := inputs + (unmet - returned);
  }

  /** The backward loop. A failing step ends the pass, whatever partitions come before it. */
  method SignAll(s: Scheduler, ps: seq<Partition>, skips: seq<bool>) returns (sigs: Option<seq<Signature>>)
    requires |ps| == |skips|
    ensures sigs.Some? <==> Succeeds(s, ps, 0)
    ensures sigs.Some? ==> sigs.value == Signatures(s, ps, skips, 0)
  {
    hide StepSucceeds, SignatureOf, Step;
    var signed := [];
    var unmet := s.graphOutputs;
    for i := |ps| downto 0
      invariant unmet == Unmet(s, ps, i)
      invariant Succeeds(s, ps, i)
      invariant signed == Signatures(s, ps, skips, i)
    {
      var sig, unmet' := SignPartition(s, ps[i], skips[i], unmet);
      if sig.None? {
        FailureIsFinal(s, ps, i);
        return None;
      }
      assert Unmet(s, ps, i) == Step(s, ps[i], unmet);
      assert Signatures(s, ps, skips, i) == [sig.value] + signed;
      signed := [sig.value] + signed;
      unmet := unmet';
    }
    sigs := Some(signed);
  }

  lemma {:induction false} FailureIsFinal(s: Scheduler, ps: seq<Partition>, i: nat)
    requires i <= |ps| && !Succeeds(s, ps, i)
    ensures !Succeeds(s, ps, 0)
  {
    hide StepSucceeds, Unmet;
    if i == 0 {
    } else {
      FailureIsFinal(s, ps, i - 1);
    }
  }

  // ---------- What a signature says, node by node ----------

  ghost predicate Makes(p: Partition, x: Name) {
    exists n <- p :: x in n.outputs
  }

  ghost predicate Touches(p: Partition, x: Name) {
    exists n <- p :: x in n.readNames || x in n.writtenNames
  }

  ghost predicate Frees(p: Partition, x: Name) {
    exists n <- p :: x in n.lastUsage
  }

  /** Some node reads or writes `x`, under its own name or an alias and as an allocated buffer made
      elsewhere, or some node frees it and it was made elsewhere. */
  ghost predicate FromOutside(s: Scheduler, p: Partition, x: Name) {
    || (exists y :: Touches(p, y) && !Makes(p, y) && !IsNoneLayout(s, y) && Real(s, y) == x)
    || (Frees(p, x) && !Makes(p, x) && x in s.nameToNode)
  }

  /** `x` is what the partition returns for `y`: something it makes that is asked for, or an input
      that it does not free. */
  ghost predicate HandsOn(s: Scheduler, p: Partition, unmet: set<Name>, y: Name, x: Name) {
    && Real(s, y) == x
    && ((Makes(p, y) && y in unmet) || (FromOutside(s, p, y) && y in s.nameToNode && !Frees(p, y)))
  }

  /** Every field of the signature, in terms of the nodes of the partition. */
  ghost predicate Describes(s: Scheduler, p: Partition, skip: bool, unmet: set<Name>, sig: Signature) {
    && sig.skipCudagraph == skip
    && (forall x :: x in sig.inputNodes <==> x in s.nameToNode && FromOutside(s, p, x))
    && (forall x :: x in sig.constantNames <==> x in s.constants && FromOutside(s, p, x))
    && (forall x :: x in sig.outputNodes <==> !IsNoneLayout(s, x) && exists y :: HandsOn(s, p, unmet, y, x))
    && sig.inputDeallocation.Keys == sig.inputNodes
    && (forall x <- sig.inputDeallocation :: sig.inputDeallocation[x] <==> Frees(p, x))
    && sig.symbolInputs == s.symbolInputs(p, sig.inputNodes)
  }

  lemma {:induction false} NamesOfNodes(p: Partition, x: Name)
    ensures x in Defined(p) <==> Makes(p, x)
    ensures x in Accessed(p) <==> Touches(p, x)
    ensures x in Freed(p) <==> Frees(p, x)
  {
    if Touches(p, x) {
      var n :| n in p && (x in n.readNames || x in n.writtenNames);
      assert x in n.readNames + n.writtenNames;
    }
  }

  lemma {:induction false} InputsComeFromOutside(s: Scheduler, p: Partition, x: Name)
    ensures x in Inputs(s, p) <==> FromOutside(s, p, x)
  {
    forall y
      ensures (y in Defined(p) <==> Makes(p, y)) && (y in Accessed(p) <==> Touches(p, y))
      ensures y in Freed(p) <==> Frees(p, y)
    {
      NamesOfNodes(p, y);
    }
    hide Defined, Accessed, Freed, Makes, Touches, Frees, IsNoneLayout, Real;
    if FromOutside(s, p, x) && !(Frees(p, x) && !Makes(p, x) && x in s.nameToNode) {
      var y :| Touches(p, y) && !Makes(p, y) && !IsNoneLayout(s, y) && Real(s, y) == x;
      assert y in Allocated(s, p) - Defined(p);
    }
    if x in RealNames(s, Allocated(s, p) - Defined(p)) {
      var y :| y in Allocated(s, p) - Defined(p) && Real(s, y) == x;
      assert Touches(p, y) && !Makes(p, y);
    }
  }

  lemma {:induction false} ReturnedAreHandedOn(s: Scheduler, p: Partition, unmet: set<Name>, x: Name)
    ensures x in Returned(s, p, unmet) <==> exists y :: HandsOn(s, p, unmet, y, x)
  {
    forall y
      ensures (y in Defined(p) <==> Makes(p, y)) && (y in Freed(p) <==> Frees(p, y))
      ensures y in Inputs(s, p) <==> FromOutside(s, p, y)
    {
      NamesOfNodes(p, y);
      InputsComeFromOutside(s, p, y);
    }
    hide Defined, Freed, Inputs, Makes, Frees, FromOutside, Real;
    var handed := Defined(p) * unmet + (Inputs(s, p) * s.nameToNode - Freed(p));
    if x in Returned(s, p, unmet) {
      var y :| y in handed && Real(s, y) == x;
      assert HandsOn(s, p, unmet, y, x);
    }
    if y :| HandsOn(s, p, unmet, y, x) {
      assert y in handed;
    }
  }

  lemma {:induction false} SignatureDescribes(s: Scheduler, p: Partition, skip: bool, unmet: set<Name>)
    ensures Describes(s, p, skip, unmet, SignatureOf(s, p, skip, unmet))
  {
    forall x
      ensures x in Freed(p) <==> Frees(p, x)
      ensures x in Inputs(s, p) <==> FromOutside(s, p, x)
      ensures x in Returned(s, p, unmet) <==> exists y :: HandsOn(s, p, unmet, y, x)
    {
      NamesOfNodes(p, x);
      InputsComeFromOutside(s, p, x);
      ReturnedAreHandedOn(s, p, unmet, x);
    }
    hide Defined, Freed, Inputs, Returned, Makes, Frees, FromOutside, HandsOn, IsNoneLayout;
  }

  lemma {:induction false} SignaturesFrom(s: Scheduler, ps: seq<Partition>, skips: seq<bool>, i: nat)
    requires i <= |ps| == |skips|
    ensures |Signatures(s, ps, skips, i)| == |ps| - i
    ensures forall k :: i <= k < |ps| ==>
              Signatures(s, ps, skips, i)[k - i] == SignatureOf(s, ps[k], skips[k], Unmet(s, ps, k + 1))
    decreases |ps| - i
  {
    hide SignatureOf, Unmet;
    if i == |ps| {
    } else {
      SignaturesFrom(s, ps, skips, i + 1);
    }
  }

  // ---------- Layouts, without the bookkeeping ----------

  /** What has been seen on the way does not change an answer. */
  lemma {:induction false} SeenDoesNotMatter(s: Scheduler, x: Name, seen: set<Name>, more: set<Name>)
    requires seen <= more && NoneLayout(s, x, more).Some?
    ensures NoneLayout(s, x, seen) == NoneLayout(s, x, more)
    decreases s.mutationRealName.Keys - more
  {
    if x in s.nameToBuf && s.nameToBuf[x].noneLayout && s.nameToBuf[x].mutationOutput && x in s.mutationRealName
       && s.mutationRealName[x] != "" && x !in more {
      SeenDoesNotMatter(s, s.mutationRealName[x], seen + {x}, more + {x});
    }
  }

  /** A buffer is unallocated exactly when its layout says so and, if it is a mutation output with a
      real name, that one is unallocated too. */
  lemma {:induction false} UnallocatedExactly(s: Scheduler, x: Name)
    requires !Diverges(s, x)
    ensures IsNoneLayout(s, x) <==>
              && x in s.nameToBuf && s.nameToBuf[x].noneLayout
              && (s.nameToBuf[x].mutationOutput && x in s.mutationRealName && s.mutationRealName[x] != "" ==>
                    IsNoneLayout(s, s.mutationRealName[x]))
  {
    if x in s.nameToBuf && s.nameToBuf[x].noneLayout && s.nameToBuf[x].mutationOutput && x in s.mutationRealName
       && s.mutationRealName[x] != "" {
      SeenDoesNotMatter(s, s.mutationRealName[x], {}, {} + {x});
    }
  }

  // ---------- The whole pass ----------

  /** `zip` over two reversed lists pairs them from the back, so when the lists differ in length only
      the last partitions are signed, each with the flag as far from the end as itself. */
  method GetGraphPartitionSignature(s: Scheduler, partitions: seq<Partition>, skips: seq<bool>)
    returns (sigs: Option<seq<Signature>>)
    ensures var n := MinInt(|partitions|, |skips|);
            var ps, sk := partitions[|partitions| - n..], skips[|skips| - n..];
            && (sigs.Some? <==> Succeeds(s, ps, 0))
            && (sigs.Some? ==> sigs.value == Signatures(s, ps, sk, 0))
    ensures sigs.Some? ==> EachSignedFromBack(s, partitions, skips, sigs.value)
  {
    hide *;
    LesserInBounds(|partitions|, |skips|);
    var n := MinInt(|partitions|, |skips|);
    AllSignedFromBack(s, partitions, skips, n);
    sigs := SignAll(s, partitions[|partitions| - n..], skips[|skips| - n..]);
  }

  lemma {:induction false} LesserInBounds(a: nat, b: nat)
    ensures 0 <= MinInt(a, b) <= a && MinInt(a, b) <= b
  {
  }

  /** The `j`-th signature from the back describes the `j`-th partition from the back, with the
      `j`-th flag from the back and what the last `j - 1` partitions leave to be supplied. */
  ghost predicate SignedFromBack(
      s: Scheduler, partitions: seq<Partition>, skips: seq<bool>, sigs: seq<Signature>, j: nat)
    requires 1 <= j <= |sigs| == MinInt(|partitions|, |skips|)
  {
    Describes(s, partitions[|partitions| - j], skips[|skips| - j],
              Unmet(s, partitions[|partitions| - j + 1..], 0), sigs[|sigs| - j])
  }

  /** There is one signature for each pair, and each describes its partition. */
  ghost predicate EachSignedFromBack(
      s: Scheduler, partitions: seq<Partition>, skips: seq<bool>, sigs: seq<Signature>)
  {
    && |sigs| == MinInt(|partitions|, |skips|)
    && forall j :: 1 <= j <= |sigs| ==> SignedFromBack(s, partitions, skips, sigs, j)
  }

  /** What the partitions from `i` on leave unmet does not depend on those before. */
  lemma {:induction false} UnmetOfSuffix(s: Scheduler, ps: seq<Partition>, i: nat, k: nat)
    requires i <= k <= |ps|
    ensures Unmet(s, ps, k) == Unmet(s, ps[i..], k - i)
    decreases |ps| - k
  {
    hide Step;
    if k == |ps| {
    } else {
      UnmetOfSuffix(s, ps, i, k + 1);
      assert ps[i..][k - i] == ps[k];
    }
  }

  lemma {:induction false} AllSignedFromBack(
      s: Scheduler, partitions: seq<Partition>, skips: seq<bool>, n: nat)
    requires n == MinInt(|partitions|, |skips|)
    ensures var ps, sk := partitions[|partitions| - n..], skips[|skips| - n..];
            EachSignedFromBack(s, partitions, skips, Signatures(s, ps, sk, 0))
  {
    hide Signatures, Unmet, Describes, SignatureOf;
    var ps, sk := partitions[|partitions| - n..], skips[|skips| - n..];
    var sigs := Signatures(s, ps, sk, 0);
    SignaturesFrom(s, ps, sk, 0);
    forall j | 1 <= j <= n ensures SignedFromBack(s, partitions, skips, sigs, j) {
      var k := n - j;
      assert sigs[k - 0] == SignatureOf(s, ps[k], sk[k], Unmet(s, ps, k + 1));
      UnmetOfSuffix(s, ps, k + 1, k + 1);
      assert ps[k + 1..] == partitions[|partitions| - j + 1..];
      assert ps[k] == partitions[|partitions| - j] && sk[k] == skips[|skips| - j];
      SignatureDescribes(s, ps[k], sk[k], Unmet(s, ps, k + 1));
    }
  }
}
