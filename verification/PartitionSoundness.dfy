/**
  Why the signatures are right: running the partitions forward with them never asks for
  a buffer that is gone, and ends with every graph output in hand.
 */
module PartitionSoundness {
  import opened Common
  import opened PartitionSignatures

  // ---------- Running signed partitions ----------

  /** Inside a partition only its inputs and its own definitions are at hand: they must hold
      whatever it returns and every buffer it accesses. */
  predicate SelfContained(s: Scheduler, p: Partition, sig: Signature) {
    && sig.outputNodes <= sig.inputNodes + Defined(p)
    && RealNames(s, Allocated(s, p)) * s.nameToNode <= sig.inputNodes + Defined(p)
  }

  /** Calling a partition needs its inputs, drops the ones it deallocates and adds what it returns. */
  function RunPartition(s: Scheduler, p: Partition, sig: Signature, available: set<Name>): Option<set<Name>> {
    if sig.inputNodes <= available && SelfContained(s, p, sig)
    then Some(available - (set x | x in sig.inputDeallocation && sig.inputDeallocation[x]) + sig.outputNodes)
    else None
  }

  /** Runs partitions `i` and later, each by its signature. */
  function RunFrom(s: Scheduler, ps: seq<Partition>, sigs: seq<Signature>, i: nat, available: set<Name>)
    : Option<set<Name>>
    requires i <= |ps| == |sigs|
    decreases |ps| - i
  {
    if i == |ps| then Some(available)
    else
      var after := RunPartition(s, ps[i], sigs[i], available);
      if after.None? then None else RunFrom(s, ps, sigs, i + 1, after.value)
  }

  /** `sigs` are the signatures that the pass gives the partitions. */
  ghost predicate Signed(s: Scheduler, ps: seq<Partition>, sigs: seq<Signature>) {
    && |sigs| == |ps|
    && forall k :: 0 <= k < |ps| ==> sigs[k] == SignatureOf(s, ps[k], sigs[k].skipCudagraph, Unmet(s, ps, k + 1))
  }

  lemma {:induction false} PassSigns(s: Scheduler, ps: seq<Partition>, skips: seq<bool>)
    requires |ps| == |skips|
    ensures Signed(s, ps, Signatures(s, ps, skips, 0))
  {
    hide Signatures, Unmet;
    SignaturesFrom(s, ps, skips, 0);
    var sigs := Signatures(s, ps, skips, 0);
    forall k | 0 <= k < |ps|
      ensures sigs[k] == SignatureOf(s, ps[k], sigs[k].skipCudagraph, Unmet(s, ps, k + 1))
    {
      assert sigs[k - 0] == SignatureOf(s, ps[k], skips[k], Unmet(s, ps, k + 1));
    }
  }

  // ---------- What the scheduler guarantees ----------

  /** `x` exists when partition `i` is entered. */
  ghost predicate Ready(ps: seq<Partition>, graphInputs: set<Name>, i: nat, x: Name)
    requires i <= |ps|
  {
    x in graphInputs || exists j :: 0 <= j < i && x in Defined(ps[j])
  }

  /** Names are defined once, every definition and graph input has a node, and graph inputs are allocated. */
  ghost predicate DefinedOnce(s: Scheduler, ps: seq<Partition>, graphInputs: set<Name>) {
    && graphInputs <= s.nameToNode
    && (forall x <- graphInputs :: !IsNoneLayout(s, x))
    && (forall i :: 0 <= i < |ps| ==> Defined(ps[i]) <= s.nameToNode && Defined(ps[i]) !! graphInputs)
    && (forall i, j :: 0 <= i < j < |ps| ==> Defined(ps[i]) !! Defined(ps[j]))
  }

  /** Aliases lead to real names in one hop, to a buffer that exists by then and is allocated
      whenever the alias is. */
  ghost predicate AliasesResolve(s: Scheduler, ps: seq<Partition>, graphInputs: set<Name>) {
    && s.mutationRealName.Keys <= s.nameToNode - graphInputs
    && (forall x <- s.mutationRealName :: s.mutationRealName[x] !in s.mutationRealName)
    && (forall x <- s.mutationRealName :: !IsNoneLayout(s, x) ==> !IsNoneLayout(s, s.mutationRealName[x]))
    && (forall i, x :: 0 <= i < |ps| && x in Defined(ps[i]) && x in s.mutationRealName ==>
          Ready(ps, graphInputs, i, s.mutationRealName[x]) || s.mutationRealName[x] in Defined(ps[i]))
  }

  /** A buffer with a node is accessed only where it exists. */
  ghost predicate AccessesExist(s: Scheduler, ps: seq<Partition>, graphInputs: set<Name>) {
    forall i, x :: 0 <= i < |ps| && x in Allocated(s, ps[i]) && x in s.nameToNode ==>
      Ready(ps, graphInputs, i, x) || x in Defined(ps[i])
  }

  /** A real buffer that the graph returns, or that partition `i` or a later one touches or frees. */
  ghost predicate Wanted(s: Scheduler, ps: seq<Partition>, i: nat, x: Name)
    requires i <= |ps|
  {
    || x in RealNames(s, s.graphOutputs)
    || exists j :: i <= j < |ps| && (x in RealNames(s, Allocated(s, ps[j])) || x in Freed(ps[j]) * s.nameToNode)
  }

  /** What is freed is real and existing, and nothing wants it afterwards. */
  ghost predicate FreesAreLast(s: Scheduler, ps: seq<Partition>, graphInputs: set<Name>) {
    forall i, x :: 0 <= i < |ps| && x in Freed(ps[i]) && x in s.nameToNode ==>
      && x !in s.mutationRealName
      && (Ready(ps, graphInputs, i, x) || x in Defined(ps[i]))
      && !Wanted(s, ps, i + 1, x)
  }

  ghost predicate Scheduled(s: Scheduler, ps: seq<Partition>, graphInputs: set<Name>) {
    && DefinedOnce(s, ps, graphInputs)
    && AliasesResolve(s, ps, graphInputs)
    && AccessesExist(s, ps, graphInputs)
    && FreesAreLast(s, ps, graphInputs)
  }

  // ---------- What it takes for the signed partitions to run ----------

  /** The partition makes the real buffer `r`, frees it, or reaches it under a name it does not define. */
  ghost predicate Backed(s: Scheduler, p: Partition, r: Name) {
    || r in Defined(p)
    || (r in s.nameToNode && (r in Freed(p) || exists y :: y in Allocated(s, p) - Defined(p) && Real(s, y) == r))
  }

  /** Every alias the partition defines is backed, if the graph returns it or the partition accesses it. */
  ghost predicate AliasesBacked(s: Scheduler, p: Partition) {
    forall x <- Defined(p) :: UsesAlias(s, p, x) ==> Backed(s, p, s.mutationRealName[x])
  }

  /** `x` is an alias of an allocated buffer that the graph returns, or one that the partition accesses. */
  predicate UsesAlias(s: Scheduler, p: Partition, x: Name) {
    && x in s.mutationRealName
    && ((x in s.graphOutputs && !IsNoneLayout(s, s.mutationRealName[x])) || x in Allocated(s, p))
  }

  /** Whatever the partition frees without having made it is allocated. */
  ghost predicate FreesAllocated(s: Scheduler, p: Partition) {
    forall x :: x in (Freed(p) - Defined(p)) * s.nameToNode ==> !IsNoneLayout(s, x)
  }

  ghost predicate WellFormed(s: Scheduler, ps: seq<Partition>, graphInputs: set<Name>) {
    && Scheduled(s, ps, graphInputs)
    && forall i :: 0 <= i < |ps| ==> AliasesBacked(s, ps[i]) && FreesAllocated(s, ps[i])
  }

  // ---------- Properties of single steps ----------

  lemma {:induction false} InputsAreReady(s: Scheduler, ps: seq<Partition>, graphInputs: set<Name>, i: nat, x: Name)
    requires Scheduled(s, ps, graphInputs) && i < |ps|
    requires x in Inputs(s, ps[i]) && x in s.nameToNode
    ensures Ready(ps, graphInputs, i, x)
    ensures x !in s.mutationRealName
    ensures FreesAllocated(s, ps[i]) || x !in Freed(ps[i]) ==> !IsNoneLayout(s, x)
  {
    hide Defined, Accessed, Freed, IsNoneLayout;
    if x in RealNames(s, Allocated(s, ps[i]) - Defined(ps[i])) {
      var y :| y in Allocated(s, ps[i]) - Defined(ps[i]) && Real(s, y) == x;
      assert !IsNoneLayout(s, y);
      assert Ready(ps, graphInputs, i, y);
      if y in s.mutationRealName {
        var j :| 0 <= j < i && y in Defined(ps[j]);
        assert Ready(ps, graphInputs, j, x) || x in Defined(ps[j]);
      }
    }
  }

  lemma {:induction false} UnmetIsWanted(s: Scheduler, ps: seq<Partition>, graphInputs: set<Name>, i: nat, x: Name)
    requires Scheduled(s, ps, graphInputs) && i <= |ps|
    requires x in Unmet(s, ps, i)
    ensures Wanted(s, ps, i, Real(s, x))
    decreases |ps| - i
  {
    hide Defined, Accessed, Freed, IsNoneLayout, Allocated;
    if i == |ps| {
    } else {
      if x in Inputs(s, ps[i]) {
        if x in RealNames(s, Allocated(s, ps[i]) - Defined(ps[i])) {
          var y :| y in Allocated(s, ps[i]) && Real(s, y) == x;
          assert Real(s, x) == x;
        }
      } else {
        UnmetIsWanted(s, ps, graphInputs, i + 1, x);
      }
    }
  }

  lemma {:induction false} ReturnedIsReal(
      s: Scheduler, ps: seq<Partition>, graphInputs: set<Name>, i: nat, unmet: set<Name>, x: Name)
    requires Scheduled(s, ps, graphInputs) && i < |ps|
    requires x in Returned(s, ps[i], unmet)
    ensures x in s.nameToNode && x !in s.mutationRealName
    ensures Ready(ps, graphInputs, i + 1, x)
  {
    hide Defined, Accessed, Freed, IsNoneLayout, Allocated, Inputs;
    var y :| y in Defined(ps[i]) * unmet + (Inputs(s, ps[i]) * s.nameToNode - Freed(ps[i])) && Real(s, y) == x;
    if y in Defined(ps[i]) {
      if y in s.mutationRealName {
        assert Ready(ps, graphInputs, i, x) || x in Defined(ps[i]);
      }
    } else {
      InputsAreReady(s, ps, graphInputs, i, y);
    }
  }

  /** One hop ends every alias chain, so no layout query runs for ever. */
  lemma {:induction false} AliasChainsEnd(s: Scheduler, x: Name)
    requires forall y <- s.mutationRealName :: s.mutationRealName[y] !in s.mutationRealName
    ensures !Diverges(s, x)
  {
    if x in s.mutationRealName {
      assert {} + {x} == {x};
      assert NoneLayout(s, s.mutationRealName[x], {} + {x}).Some?;
    }
  }

  /** On a scheduled graph the pass raises nothing. */
  lemma {:induction false} PassNeverFails(s: Scheduler, ps: seq<Partition>, graphInputs: set<Name>, i: nat)
    requires Scheduled(s, ps, graphInputs) && i <= |ps|
    ensures Succeeds(s, ps, i)
    decreases |ps| - i
  {
    if i == |ps| {
    } else {
      PassNeverFails(s, ps, graphInputs, i + 1);
      var unmet := Unmet(s, ps, i + 1);
      assert StepSucceeds(s, ps[i], unmet) by {
        hide Defined, Accessed, Freed, IsNoneLayout, Diverges, Returned;
        forall x { AliasChainsEnd(s, x); }
        forall x | x in Returned(s, ps[i], unmet) { ReturnedIsReal(s, ps, graphInputs, i, unmet, x); }
      }
    }
  }

  // ---------- What a signature covers ----------

  predicate StandsForAllocated(s: Scheduler, x: Name) {
    x in s.mutationRealName && !IsNoneLayout(s, s.mutationRealName[x])
  }

  /** A partition returns only what it takes in or makes exactly when every alias it hands on,
      for an allocated buffer, is backed. */
  lemma {:induction false} OutputsAreItsOwn(s: Scheduler, p: Partition, skip: bool, unmet: set<Name>)
    ensures var sig := SignatureOf(s, p, skip, unmet);
            sig.outputNodes <= sig.inputNodes + Defined(p) <==>
              forall x <- Defined(p) * unmet + (Inputs(s, p) * s.nameToNode - Freed(p)) ::
                StandsForAllocated(s, x) ==> Backed(s, p, s.mutationRealName[x])
  {
    hide Defined, Accessed, Freed, IsNoneLayout, Allocated;
    var sig := SignatureOf(s, p, skip, unmet);
    forall r ensures Backed(s, p, r) <==> r in sig.inputNodes + Defined(p) { BackedExactly(s, p, r); }
    hide Inputs, Backed;
    var handed := Defined(p) * unmet + (Inputs(s, p) * s.nameToNode - Freed(p));
    assert forall x <- handed :: Real(s, x) in Returned(s, p, unmet);
    assert forall x <- handed :: x in s.mutationRealName || x in sig.inputNodes + Defined(p);
  }

  /** What backs a buffer is what puts it among the inputs or the definitions. */
  lemma {:induction false} BackedExactly(s: Scheduler, p: Partition, r: Name)
    ensures Backed(s, p, r) <==> r in Inputs(s, p) * s.nameToNode + Defined(p)
  {
    hide Defined, Accessed, Freed, IsNoneLayout, Allocated;
  }

  predicate StandsForNode(s: Scheduler, x: Name) {
    x in s.mutationRealName && s.mutationRealName[x] in s.nameToNode
  }

  /** The buffers behind a partition's accesses are its inputs or definitions exactly when every
      alias it both defines and accesses is backed. */
  lemma {:induction false} InputsCoverAccesses(s: Scheduler, p: Partition)
    ensures RealNames(s, Allocated(s, p)) * s.nameToNode <= Inputs(s, p) * s.nameToNode + Defined(p) <==>
              forall x <- Allocated(s, p) * Defined(p) ::
                StandsForNode(s, x) ==> Backed(s, p, s.mutationRealName[x])
  {
    hide Defined, Accessed, Freed, IsNoneLayout, Allocated;
    forall r ensures Backed(s, p, r) <==> r in Inputs(s, p) * s.nameToNode + Defined(p) { BackedExactly(s, p, r); }
    hide Backed;
    assert forall x <- Allocated(s, p) :: Real(s, x) in RealNames(s, Allocated(s, p));
    assert forall x <- Allocated(s, p) - Defined(p) :: Real(s, x) in Inputs(s, p);
  }

  /** An alias is left unmet exactly when the graph returns it: the pass asks for real names only. */
  lemma {:induction false} AliasUnmetExactly(
      s: Scheduler, ps: seq<Partition>, graphInputs: set<Name>, i: nat, x: Name)
    requires Scheduled(s, ps, graphInputs) && i <= |ps| && x in s.mutationRealName
    ensures x in Unmet(s, ps, i) <==> x in s.graphOutputs
    decreases |ps| - i
  {
    hide Defined, Accessed, Freed, IsNoneLayout, Allocated, Inputs, Returned;
    if i == |ps| {
    } else {
      AliasUnmetExactly(s, ps, graphInputs, i + 1, x);
      var unmet := Unmet(s, ps, i + 1);
      if x in Inputs(s, ps[i]) { InputsAreReady(s, ps, graphInputs, i, x); }
      if x in Returned(s, ps[i], unmet) { ReturnedIsReal(s, ps, graphInputs, i, unmet, x); }
    }
  }

  /** A partition can do its work with what its signature gives it exactly when its aliases are backed. */
  lemma {:induction false} SelfContainedExactly(
      s: Scheduler, ps: seq<Partition>, graphInputs: set<Name>, i: nat, skip: bool)
    requires Scheduled(s, ps, graphInputs) && i < |ps|
    ensures SelfContained(s, ps[i], SignatureOf(s, ps[i], skip, Unmet(s, ps, i + 1))) <==> AliasesBacked(s, ps[i])
  {
    hide Defined, Accessed, Freed, IsNoneLayout, Allocated, Inputs, Backed, Unmet;
    var p, unmet := ps[i], Unmet(s, ps, i + 1);
    OutputsAreItsOwn(s, p, skip, unmet);
    InputsCoverAccesses(s, p);
    forall x | x in s.mutationRealName ensures x in unmet <==> x in s.graphOutputs {
      AliasUnmetExactly(s, ps, graphInputs, i + 1, x);
    }
    forall x | x in Inputs(s, p) * s.nameToNode ensures x !in s.mutationRealName {
      InputsAreReady(s, ps, graphInputs, i, x);
    }
    forall x | x in Defined(p) && x in s.mutationRealName ensures s.mutationRealName[x] in s.nameToNode {
      AliasHasNode(s, ps, graphInputs, i, x);
    }
    forall x | x in Allocated(s, p) && x in s.mutationRealName ensures !IsNoneLayout(s, s.mutationRealName[x]) {
      AllocatedReal(s, ps, graphInputs, p, x);
    }
  }

  lemma {:induction false} AliasHasNode(s: Scheduler, ps: seq<Partition>, graphInputs: set<Name>, i: nat, x: Name)
    requires Scheduled(s, ps, graphInputs) && i < |ps| && x in Defined(ps[i]) && x in s.mutationRealName
    ensures s.mutationRealName[x] in s.nameToNode
  {
    hide Defined, Accessed, Freed, IsNoneLayout;
    assert Ready(ps, graphInputs, i, s.mutationRealName[x]) || s.mutationRealName[x] in Defined(ps[i]);
  }

  lemma {:induction false} AllocatedReal(
      s: Scheduler, ps: seq<Partition>, graphInputs: set<Name>, p: Partition, x: Name)
    requires Scheduled(s, ps, graphInputs) && x in Allocated(s, p) && x in s.mutationRealName
    ensures !IsNoneLayout(s, s.mutationRealName[x])
  {
    hide IsNoneLayout;
  }

  // ---------- Soundness over the whole run ----------

  /** Everything still unmet that already exists is at hand, under its real name. */
  ghost predicate Supplied(s: Scheduler, ps: seq<Partition>, graphInputs: set<Name>, i: nat, available: set<Name>)
    requires i <= |ps|
  {
    forall x <- Unmet(s, ps, i) ::
      Ready(ps, graphInputs, i, x) && !IsNoneLayout(s, Real(s, x)) ==> Real(s, x) in available
  }

  lemma {:induction false} InputsAreAvailable(
      s: Scheduler, ps: seq<Partition>, graphInputs: set<Name>, i: nat, available: set<Name>)
    requires Scheduled(s, ps, graphInputs) && i < |ps| && FreesAllocated(s, ps[i])
    requires Supplied(s, ps, graphInputs, i, available)
    ensures Inputs(s, ps[i]) * s.nameToNode <= available
  {
    hide Defined, Accessed, Freed, IsNoneLayout, Ready, Inputs, FreesAllocated;
    forall x | x in Inputs(s, ps[i]) * s.nameToNode
      ensures x in available
    {
      InputsAreReady(s, ps, graphInputs, i, x);
      assert x in Unmet(s, ps, i);
      assert Real(s, x) == x;
    }
  }

  /** Running one signed partition keeps everything still unmet at hand. */
  lemma {:induction false} StepKeepsSupply(
      s: Scheduler, ps: seq<Partition>, graphInputs: set<Name>, i: nat, skip: bool, available: set<Name>)
    requires WellFormed(s, ps, graphInputs) && i < |ps|
    requires Supplied(s, ps, graphInputs, i, available)
    ensures var after := RunPartition(s, ps[i], SignatureOf(s, ps[i], skip, Unmet(s, ps, i + 1)), available);
            after.Some? && Supplied(s, ps, graphInputs, i + 1, after.value)
  {
    hide Defined, Accessed, Freed, IsNoneLayout, Inputs, Wanted, SelfContained, AliasesBacked, FreesAllocated;
    InputsAreAvailable(s, ps, graphInputs, i, available);
    SelfContainedExactly(s, ps, graphInputs, i, skip);
    var unmet := Unmet(s, ps, i + 1);
    var after := RunPartition(s, ps[i], SignatureOf(s, ps[i], skip, unmet), available);
    forall x | x in unmet && Ready(ps, graphInputs, i + 1, x) && !IsNoneLayout(s, Real(s, x))
      ensures Real(s, x) in after.value
    {
      if x in Defined(ps[i]) {
        assert Real(s, x) in Returned(s, ps[i], unmet);
      } else {
        assert Ready(ps, graphInputs, i, x);
        if x in Returned(s, ps[i], unmet) {
          ReturnedIsReal(s, ps, graphInputs, i, unmet, x);
        } else {
          assert x in Unmet(s, ps, i);
          UnmetIsWanted(s, ps, graphInputs, i + 1, x);
        }
      }
    }
  }

  lemma {:induction false} RunIsSupplied(
      s: Scheduler, ps: seq<Partition>, sigs: seq<Signature>, graphInputs: set<Name>, i: nat, available: set<Name>)
    requires WellFormed(s, ps, graphInputs) && Signed(s, ps, sigs) && i <= |ps|
    requires Supplied(s, ps, graphInputs, i, available)
    ensures var end := RunFrom(s, ps, sigs, i, available);
            end.Some? && Supplied(s, ps, graphInputs, |ps|, end.value)
    decreases |ps| - i
  {
    hide Supplied, RunPartition, SignatureOf, Unmet, WellFormed;
    if i == |ps| {
    } else {
      StepKeepsSupply(s, ps, graphInputs, i, sigs[i].skipCudagraph, available);
      var after := RunPartition(s, ps[i], sigs[i], available);
      RunIsSupplied(s, ps, sigs, graphInputs, i + 1, after.value);
    }
  }

  /** A run stops at the latest at a partition that aliases a buffer it does not have. */
  lemma {:induction false} UnbackedStops(
      s: Scheduler, ps: seq<Partition>, sigs: seq<Signature>, graphInputs: set<Name>, i: nat, k: nat,
      available: set<Name>)
    requires Scheduled(s, ps, graphInputs) && Signed(s, ps, sigs) && i <= k < |ps| && !AliasesBacked(s, ps[k])
    ensures RunFrom(s, ps, sigs, i, available).None?
    decreases |ps| - i
  {
    hide Scheduled, SignatureOf, Unmet, SelfContained, AliasesBacked;
    if i == k {
      SelfContainedExactly(s, ps, graphInputs, k, sigs[k].skipCudagraph);
    } else {
      var after := RunPartition(s, ps[i], sigs[i], available);
      if after.Some? { UnbackedStops(s, ps, sigs, graphInputs, i + 1, k, after.value); }
    }
  }

  /** An unallocated buffer is never returned. A run that starts without it therefore stops at the
      latest at a partition that frees it without having made it, since that takes it as an input. */
  lemma {:induction false} UnallocatedStops(
      s: Scheduler, ps: seq<Partition>, sigs: seq<Signature>, i: nat, k: nat, available: set<Name>, x: Name)
    requires Signed(s, ps, sigs) && i <= k < |ps|
    requires IsNoneLayout(s, x) && x !in available && x in (Freed(ps[k]) - Defined(ps[k])) * s.nameToNode
    ensures RunFrom(s, ps, sigs, i, available).None?
    decreases |ps| - i
  {
    hide Defined, Accessed, Freed, IsNoneLayout, Allocated, Returned, SelfContained, Unmet;
    if i == k {
      assert x in sigs[k].inputNodes;
    } else {
      var after := RunPartition(s, ps[i], sigs[i], available);
      assert x !in sigs[i].outputNodes;
      if after.Some? { UnallocatedStops(s, ps, sigs, i + 1, k, after.value, x); }
    }
  }

  /** The pass signs every partition of a scheduled graph. Starting from the graph inputs, the signed
      partitions run to the end exactly when every alias in use is backed where it is defined and
      nothing unallocated is freed from outside, and then leave every existing, allocated graph
      output available. */
  lemma {:induction false} SignedRunIsSound(s: Scheduler, ps: seq<Partition>, skips: seq<bool>, graphInputs: set<Name>)
    requires Scheduled(s, ps, graphInputs) && |ps| == |skips|
    ensures Succeeds(s, ps, 0) && |Signatures(s, ps, skips, 0)| == |ps|
    ensures var end := RunFrom(s, ps, Signatures(s, ps, skips, 0), 0, graphInputs);
            && (end.Some? <==> WellFormed(s, ps, graphInputs))
            && (end.Some? ==> forall x <- s.graphOutputs ::
                  Ready(ps, graphInputs, |ps|, x) && !IsNoneLayout(s, Real(s, x)) ==> Real(s, x) in end.value)
  {
    PassNeverFails(s, ps, graphInputs, 0);
    PassSigns(s, ps, skips);
    var sigs := Signatures(s, ps, skips, 0);
    hide Signatures, Signed, Unmet, RunFrom;
    if WellFormed(s, ps, graphInputs) {
      NothingRunYet(s, ps, graphInputs);
      RunIsSupplied(s, ps, sigs, graphInputs, 0, graphInputs);
      assert Unmet(s, ps, |ps|) == s.graphOutputs by { AllUnmet(s, ps); }
    } else {
      StopsSomewhere(s, ps, sigs, graphInputs);
    }
  }

  lemma {:induction false} AllUnmet(s: Scheduler, ps: seq<Partition>)
    ensures Unmet(s, ps, |ps|) == s.graphOutputs
  {
  }

  lemma {:induction false} NothingRunYet(s: Scheduler, ps: seq<Partition>, graphInputs: set<Name>)
    requires Scheduled(s, ps, graphInputs)
    ensures Supplied(s, ps, graphInputs, 0, graphInputs)
  {
    hide Defined, Accessed, Freed, IsNoneLayout, Unmet;
  }

  lemma {:induction false} StopsSomewhere(
      s: Scheduler, ps: seq<Partition>, sigs: seq<Signature>, graphInputs: set<Name>)
    requires Scheduled(s, ps, graphInputs) && !WellFormed(s, ps, graphInputs) && Signed(s, ps, sigs)
    ensures RunFrom(s, ps, sigs, 0, graphInputs).None?
  {
    hide Defined, Freed, IsNoneLayout, AliasesBacked, RunFrom, Signed;
    var k :| 0 <= k < |ps| && !(AliasesBacked(s, ps[k]) && FreesAllocated(s, ps[k]));
    if AliasesBacked(s, ps[k]) {
      var x :| x in (Freed(ps[k]) - Defined(ps[k])) * s.nameToNode && IsNoneLayout(s, x);
      UnallocatedStops(s, ps, sigs, 0, k, graphInputs, x);
    } else {
      UnbackedStops(s, ps, sigs, graphInputs, 0, k, graphInputs);
    }
  }

  // ---------- Freed buffers do not come back ----------

  lemma {:induction false} UnwantedIsNotReturned(
      s: Scheduler, ps: seq<Partition>, graphInputs: set<Name>, i: nat, x: Name)
    requires Scheduled(s, ps, graphInputs) && i < |ps|
    requires x !in s.mutationRealName && !Wanted(s, ps, i + 1, x)
    requires x !in Inputs(s, ps[i]) || x in Freed(ps[i])
    ensures x !in Returned(s, ps[i], Unmet(s, ps, i + 1))
  {
    hide Defined, Accessed, Freed, IsNoneLayout, Inputs, Wanted, Unmet;
    var unmet := Unmet(s, ps, i + 1);
    if y :| y in Defined(ps[i]) * unmet + (Inputs(s, ps[i]) * s.nameToNode - Freed(ps[i])) && Real(s, y) == x {
      if y in Defined(ps[i]) * unmet {
        UnmetIsWanted(s, ps, graphInputs, i + 1, y);
      } else {
        InputsAreReady(s, ps, graphInputs, i, y);
      }
      assert false;
    }
  }

  lemma {:induction false} UnwantedStaysAway(
      s: Scheduler, ps: seq<Partition>, sigs: seq<Signature>, graphInputs: set<Name>, i: nat,
      available: set<Name>, x: Name)
    requires Scheduled(s, ps, graphInputs) && Signed(s, ps, sigs) && i <= |ps|
    requires x !in s.mutationRealName && !Wanted(s, ps, i, x) && x !in available
    ensures var end := RunFrom(s, ps, sigs, i, available);
            end.Some? ==> x !in end.value
    decreases |ps| - i
  {
    hide Defined, Accessed, Freed, IsNoneLayout, Inputs, Returned, SelfContained;
    if i == |ps| {
    } else {
      var after := RunPartition(s, ps[i], sigs[i], available);
      if after.Some? {
        if x in Inputs(s, ps[i]) {
          assert x in Unmet(s, ps, i);
          UnmetIsWanted(s, ps, graphInputs, i, x);
        }
        UnwantedIsNotReturned(s, ps, graphInputs, i, x);
        UnwantedStaysAway(s, ps, sigs, graphInputs, i + 1, after.value, x);
      }
    }
  }

  /** A freed buffer is not held when its partition returns. */
  lemma {:induction false} FreedIsDropped(
      s: Scheduler, ps: seq<Partition>, graphInputs: set<Name>, k: nat, skip: bool, available: set<Name>, x: Name)
    requires Scheduled(s, ps, graphInputs) && k < |ps|
    requires forall y <- available :: Ready(ps, graphInputs, k, y)
    requires x in Freed(ps[k]) && x in s.nameToNode
    ensures x !in s.mutationRealName && !Wanted(s, ps, k + 1, x)
    ensures var after := RunPartition(s, ps[k], SignatureOf(s, ps[k], skip, Unmet(s, ps, k + 1)), available);
            after.Some? ==> x !in after.value
  {
    hide Defined, Accessed, Freed, IsNoneLayout, Allocated, Returned, Wanted, SelfContained, Unmet;
    assert !Wanted(s, ps, k + 1, x) && x !in s.mutationRealName;
    UnwantedIsNotReturned(s, ps, graphInputs, k, x);
  }

  /** What exists before a partition or is returned by it exists afterwards. */
  lemma {:induction false} HeldIsReady(
      s: Scheduler, ps: seq<Partition>, graphInputs: set<Name>, i: nat, skip: bool, available: set<Name>)
    requires Scheduled(s, ps, graphInputs) && i < |ps|
    requires forall y <- available :: Ready(ps, graphInputs, i, y)
    ensures var after := RunPartition(s, ps[i], SignatureOf(s, ps[i], skip, Unmet(s, ps, i + 1)), available);
            after.Some? ==> forall y <- after.value :: Ready(ps, graphInputs, i + 1, y)
  {
    hide Scheduled, Defined, Accessed, Freed, IsNoneLayout, Inputs, Returned, SelfContained, Unmet;
    var unmet := Unmet(s, ps, i + 1);
    forall y | y in Returned(s, ps[i], unmet) ensures Ready(ps, graphInputs, i + 1, y) {
      ReturnedIsReal(s, ps, graphInputs, i, unmet, y);
    }
  }

  lemma {:induction false} FreedIsGoneFrom(
      s: Scheduler, ps: seq<Partition>, sigs: seq<Signature>, graphInputs: set<Name>, i: nat,
      available: set<Name>, k: nat, x: Name)
    requires Scheduled(s, ps, graphInputs) && Signed(s, ps, sigs) && i <= k < |ps|
    requires forall y <- available :: Ready(ps, graphInputs, i, y)
    requires x in Freed(ps[k]) && x in s.nameToNode
    ensures var end := RunFrom(s, ps, sigs, i, available);
            end.Some? ==> x !in end.value
    decreases |ps| - i
  {
    hide Scheduled, Freed, SignatureOf, Unmet, RunPartition, Wanted, Ready;
    var after := RunPartition(s, ps[i], sigs[i], available);
    if after.Some? {
      if i == k {
        FreedIsDropped(s, ps, graphInputs, k, sigs[k].skipCudagraph, available, x);
        UnwantedStaysAway(s, ps, sigs, graphInputs, k + 1, after.value, x);
      } else {
        HeldIsReady(s, ps, graphInputs, i, sigs[i].skipCudagraph, available);
        FreedIsGoneFrom(s, ps, sigs, graphInputs, i + 1, after.value, k, x);
      }
    }
  }

  /** Whatever some partition frees is no longer held when the run ends: nothing leaks. */
  lemma {:induction false} FreedIsGone(s: Scheduler, ps: seq<Partition>, skips: seq<bool>, graphInputs: set<Name>)
    requires WellFormed(s, ps, graphInputs) && |ps| == |skips|
    ensures |Signatures(s, ps, skips, 0)| == |ps|
    ensures var end := RunFrom(s, ps, Signatures(s, ps, skips, 0), 0, graphInputs);
            end.Some? && forall k :: 0 <= k < |ps| ==> Freed(ps[k]) * s.nameToNode !! end.value
  {
    hide Freed, RunFrom, Signatures, Scheduled, Signed;
    SignedRunIsSound(s, ps, skips, graphInputs);
    PassSigns(s, ps, skips);
    var sigs := Signatures(s, ps, skips, 0);
    var end := RunFrom(s, ps, sigs, 0, graphInputs);
    forall k | 0 <= k < |ps| ensures Freed(ps[k]) * s.nameToNode !! end.value {
      forall x | x in Freed(ps[k]) * s.nameToNode ensures x !in end.value {
        FreedIsGoneFrom(s, ps, sigs, graphInputs, 0, graphInputs, k, x);
      }
    }
  }

  /** Every input of a partition is either freed there or handed back, and never both. */
  lemma {:induction false} InputsFreedOrReturned(
      s: Scheduler, ps: seq<Partition>, graphInputs: set<Name>, i: nat, skip: bool, x: Name)
    requires Scheduled(s, ps, graphInputs) && i < |ps|
    requires x in SignatureOf(s, ps[i], skip, Unmet(s, ps, i + 1)).inputNodes
    ensures var sig := SignatureOf(s, ps[i], skip, Unmet(s, ps, i + 1));
            x in sig.inputDeallocation && (sig.inputDeallocation[x] <==> x !in sig.outputNodes)
  {
    hide Defined, Accessed, Freed, IsNoneLayout, Inputs, Wanted, Unmet, FreesAllocated;
    InputsAreReady(s, ps, graphInputs, i, x);
    var unmet := Unmet(s, ps, i + 1);
    if x in Freed(ps[i]) {
      assert !Wanted(s, ps, i + 1, x);
      UnwantedIsNotReturned(s, ps, graphInputs, i, x);
    } else {
      assert Real(s, x) in Returned(s, ps[i], unmet);
    }
  }

  // ---------- Unallocated buffers ----------

  /** A NoneLayout buffer is never an output; it is an input exactly when it is freed
      without being defined here, since that part of the inputs is not filtered. */
  lemma {:induction false} NoneLayoutInputs(s: Scheduler, p: Partition, skip: bool, unmet: set<Name>)
    requires forall x <- Allocated(s, p) - Defined(p) :: !IsNoneLayout(s, Real(s, x))
    ensures var sig := SignatureOf(s, p, skip, unmet);
            && (forall x <- sig.outputNodes :: !IsNoneLayout(s, x))
            && ((forall x <- sig.inputNodes :: !IsNoneLayout(s, x)) <==>
                (forall x <- (Freed(p) - Defined(p)) * s.nameToNode :: !IsNoneLayout(s, x)))
  {
    hide Defined, Accessed, Freed, IsNoneLayout, Allocated;
    var sig := SignatureOf(s, p, skip, unmet);
    if forall x <- sig.inputNodes :: !IsNoneLayout(s, x) {
      forall x | x in (Freed(p) - Defined(p)) * s.nameToNode ensures !IsNoneLayout(s, x) {
        assert x in sig.inputNodes;
      }
    }
  }

  // ---------- Liveness without aliases ----------

  /** Textbook liveness along the partition list: some later use of `x` is reached before
      any redefinition, or `x` is a graph output that nothing later defines. */
  ghost predicate Live(s: Scheduler, ps: seq<Partition>, i: nat, x: Name)
    requires i <= |ps|
  {
    || (exists j :: i <= j < |ps| && x in Inputs(s, ps[j]) && forall k :: i <= k < j ==> x !in Defined(ps[k]))
    || (x in s.graphOutputs && forall k :: i <= k < |ps| ==> x !in Defined(ps[k]))
  }

  lemma {:induction false} LiveStep(s: Scheduler, ps: seq<Partition>, i: nat, x: Name)
    requires i < |ps|
    ensures Live(s, ps, i, x) <==> x in Inputs(s, ps[i]) || (Live(s, ps, i + 1, x) && x !in Defined(ps[i]))
  {
    hide Inputs, Defined;
    if Live(s, ps, i, x) && x !in Inputs(s, ps[i]) {
      if j :| i <= j < |ps| && x in Inputs(s, ps[j]) && forall k :: i <= k < j ==> x !in Defined(ps[k]) {
        assert i + 1 <= j;
      }
      if i == |ps| - 1 { assert x !in Defined(ps[i]); }
    }
  }

  /** Subtracting pass-through outputs loses nothing: the unmet set is `inputs + (live-out - defined)`. */
  lemma {:induction false} StepIsTextbook(s: Scheduler, p: Partition, unmet: set<Name>)
    requires s.mutationRealName == map[]
    ensures Step(s, p, unmet) == Inputs(s, p) + (unmet - Defined(p))
  {
    hide Inputs, Defined, Freed;
    assert Returned(s, p, unmet) == Defined(p) * unmet + (Inputs(s, p) * s.nameToNode - Freed(p)) by {
      assert forall names: set<Name> :: RealNames(s, names) == names;
    }
  }

  lemma {:induction false} UnmetIsLive(s: Scheduler, ps: seq<Partition>, i: nat, x: Name)
    requires s.mutationRealName == map[] && i <= |ps|
    ensures x in Unmet(s, ps, i) <==> Live(s, ps, i, x)
    decreases |ps| - i
  {
    hide Inputs, Defined, Freed, Step;
    if i == |ps| {
    } else {
      StepIsTextbook(s, ps[i], Unmet(s, ps, i + 1));
      UnmetIsLive(s, ps, i + 1, x);
      LiveStep(s, ps, i, x);
    }
  }

  /** A partition hands back an allocated definition of its own exactly when it is live afterwards. */
  lemma {:induction false} OwnDefinitionsReturned(s: Scheduler, ps: seq<Partition>, i: nat, skip: bool, x: Name)
    requires s.mutationRealName == map[] && i < |ps|
    requires x in Defined(ps[i]) && !IsNoneLayout(s, x)
    ensures x in SignatureOf(s, ps[i], skip, Unmet(s, ps, i + 1)).outputNodes <==> Live(s, ps, i + 1, x)
  {
    hide Defined, Freed, IsNoneLayout, Allocated;
    UnmetIsLive(s, ps, i + 1, x);
    assert forall names: set<Name> :: RealNames(s, names) == names;
  }

  // ---------- The assumptions can be met ----------

  lemma {:induction false} OneNode(n: Node)
    ensures Defined([n]) == n.outputs && Accessed([n]) == n.readNames + n.writtenNames && Freed([n]) == n.lastUsage
  {
    assert n in [n];
  }

  /** A buffer made in one partition and mutated in place, under an alias, in the next. */
  const EXAMPLE := Scheduler(map["a" := Buffer(false, false), "m" := Buffer(true, true)], map["m" := "a"],
                             {"a", "m", "x"}, {}, {"m"}, (p, inputs) => {})
  const MAKE: Partition := [Node({"a"}, {"x"}, {"a"}, {"x"})]
  const MUTATE: Partition := [Node({"m"}, {"a"}, {"m"}, {})]

  lemma {:induction false} ExampleLayouts()
    ensures !IsNoneLayout(EXAMPLE, "a") && !IsNoneLayout(EXAMPLE, "m") && !IsNoneLayout(EXAMPLE, "x")
  {
    assert NoneLayout(EXAMPLE, "a", {} + {"m"}) == Some(false);
  }

  lemma {:induction false} ExampleNames()
    ensures Defined(MAKE) == {"a"} && Accessed(MAKE) == {"a", "x"} && Freed(MAKE) == {"x"}
    ensures Defined(MUTATE) == {"m"} && Accessed(MUTATE) == {"a", "m"} && Freed(MUTATE) == {}
  {
    OneNode(MAKE[0]);
    OneNode(MUTATE[0]);
    assert MAKE == [MAKE[0]] && MUTATE == [MUTATE[0]];
  }

  lemma {:induction false} MutationIsWellFormed()
    ensures var ps := [MAKE, MUTATE];
            && WellFormed(EXAMPLE, ps, {"x"})
            && Ready(ps, {"x"}, 2, "m") && !IsNoneLayout(EXAMPLE, Real(EXAMPLE, "m"))
  {
    var s, ps := EXAMPLE, [MAKE, MUTATE];
    ExampleLayouts();
    ExampleNames();
    hide Defined, Accessed, Freed, IsNoneLayout;
    assert ps[0] == MAKE && ps[1] == MUTATE;
    assert "a" in Defined(ps[0]) && "m" in Defined(ps[1]);
    assert Ready(ps, {"x"}, 1, "a") && Ready(ps, {"x"}, 2, "m") && Ready(ps, {"x"}, 0, "x");
    assert Allocated(s, MUTATE) == {"a", "m"};
    assert Real(s, "a") == "a" && Real(s, "m") == "a";
    assert RealNames(s, {"a", "m"}) == {"a"} && RealNames(s, s.graphOutputs) == {"a"};
    assert "a" in Allocated(s, MUTATE) - Defined(MUTATE);
  }

  // ---------- Graphs on which the signed partitions stop ----------

  /** Defines the alias without touching the buffer behind it. */
  const RENAME: Partition := [Node({"m"}, {}, {"m"}, {})]

  lemma {:induction false} RenameNames()
    ensures Defined(RENAME) == {"m"} && Accessed(RENAME) == {"m"} && Freed(RENAME) == {}
  {
    OneNode(RENAME[0]);
    assert RENAME == [RENAME[0]];
  }

  lemma {:induction false} RenameIsScheduled()
    ensures Scheduled(EXAMPLE, [MAKE, RENAME], {"x"}) && !AliasesBacked(EXAMPLE, RENAME)
  {
    var s, ps := EXAMPLE, [MAKE, RENAME];
    ExampleLayouts();
    ExampleNames();
    RenameNames();
    hide Defined, Accessed, Freed, IsNoneLayout;
    assert ps[0] == MAKE && ps[1] == RENAME;
    assert "a" in Defined(ps[0]) && "m" in Defined(ps[1]);
    assert Ready(ps, {"x"}, 1, "a") && Ready(ps, {"x"}, 0, "x");
    assert Allocated(s, RENAME) == {"m"};
    assert Real(s, "m") == "a";
    assert RealNames(s, {"m"}) == {"a"} && s.graphOutputs == {"m"};
    assert UsesAlias(s, RENAME, "m");
  }

  lemma {:induction false} RenameStep()
    ensures Inputs(EXAMPLE, RENAME) == {} && Returned(EXAMPLE, RENAME, {"m"}) == {"a"}
    ensures Inputs(EXAMPLE, MAKE) == {"x"} && Returned(EXAMPLE, MAKE, {"m"}) == {}
  {
    var s := EXAMPLE;
    ExampleLayouts();
    ExampleNames();
    RenameNames();
    hide Defined, Accessed, Freed, IsNoneLayout;
    assert Allocated(s, RENAME) == {"m"} && Allocated(s, MAKE) == {"a", "x"};
    assert Real(s, "x") == "x" && Real(s, "m") == "a";
    assert RealNames(s, {"x"}) == {"x"} && RealNames(s, {"m"}) == {"a"} && RealNames(s, {}) == {};
    assert Allocated(s, MAKE) - Defined(MAKE) == {"x"} && Allocated(s, RENAME) - Defined(RENAME) == {};
    assert Defined(RENAME) * {"m"} + (Inputs(s, RENAME) * s.nameToNode - Freed(RENAME)) == {"m"};
    assert Defined(MAKE) * {"m"} + (Inputs(s, MAKE) * s.nameToNode - Freed(MAKE)) == {};
  }

  /** The maker of `a` does not hand it on, since only the alias is asked for; the partition that
      defines the alias then returns `a` without having it. */
  lemma {:induction false} UnbackedAliasStops(skips: seq<bool>)
    requires |skips| == 2
    ensures var ps := [MAKE, RENAME];
            var sigs := Signatures(EXAMPLE, ps, skips, 0);
            && Scheduled(EXAMPLE, ps, {"x"}) && Succeeds(EXAMPLE, ps, 0) && |sigs| == 2
            && sigs[0].outputNodes == {}
            && sigs[1].inputNodes == {} && sigs[1].outputNodes == {"a"}
            && RunFrom(EXAMPLE, ps, sigs, 0, {"x"}).None?
  {
    var s, ps := EXAMPLE, [MAKE, RENAME];
    hide Scheduled, AliasesBacked, Inputs, Returned, IsNoneLayout, Succeeds, Signatures, RunFrom;
    ExampleLayouts();
    RenameIsScheduled();
    RenameStep();
    SignedRunIsSound(s, ps, skips, {"x"});
    SignaturesFrom(s, ps, skips, 0);
    assert ps[0] == MAKE && ps[1] == RENAME;
    assert Unmet(s, ps, 2) == {"m"};
    assert Unmet(s, ps, 1) == {"m"};
    var sigs := Signatures(s, ps, skips, 0);
    assert sigs[0 - 0] == SignatureOf(s, MAKE, skips[0], {"m"});
    assert sigs[1 - 0] == SignatureOf(s, RENAME, skips[1], {"m"});
  }

  /** An unallocated token made in one partition and used for the last time in the next. */
  const TOKENS := Scheduler(map["n" := Buffer(true, false)], map[], {"n", "x"}, {}, {}, (p, inputs) => {})
  const MAKE_TOKEN: Partition := [Node({"n"}, {"x"}, {"n"}, {"x"})]
  const USE_TOKEN: Partition := [Node({}, {"n"}, {}, {"n"})]

  lemma {:induction false} TokenNames()
    ensures Defined(MAKE_TOKEN) == {"n"} && Accessed(MAKE_TOKEN) == {"n", "x"} && Freed(MAKE_TOKEN) == {"x"}
    ensures Defined(USE_TOKEN) == {} && Accessed(USE_TOKEN) == {"n"} && Freed(USE_TOKEN) == {"n"}
    ensures IsNoneLayout(TOKENS, "n") && !IsNoneLayout(TOKENS, "x")
  {
    OneNode(MAKE_TOKEN[0]);
    OneNode(USE_TOKEN[0]);
    assert MAKE_TOKEN == [MAKE_TOKEN[0]] && USE_TOKEN == [USE_TOKEN[0]];
  }

  lemma {:induction false} TokenIsScheduled()
    ensures Scheduled(TOKENS, [MAKE_TOKEN, USE_TOKEN], {"x"}) && !FreesAllocated(TOKENS, USE_TOKEN)
  {
    var s, ps := TOKENS, [MAKE_TOKEN, USE_TOKEN];
    TokenNames();
    hide Defined, Accessed, Freed, IsNoneLayout;
    assert ps[0] == MAKE_TOKEN && ps[1] == USE_TOKEN;
    assert "n" in Defined(ps[0]);
    assert Ready(ps, {"x"}, 1, "n") && Ready(ps, {"x"}, 0, "x");
    assert Allocated(s, USE_TOKEN) == {} && RealNames(s, s.graphOutputs) == {};
    assert "n" in (Freed(USE_TOKEN) - Defined(USE_TOKEN)) * s.nameToNode;
  }

  lemma {:induction false} TokenStep()
    ensures Inputs(TOKENS, USE_TOKEN) == {"n"} && Returned(TOKENS, USE_TOKEN, {}) == {}
    ensures Inputs(TOKENS, MAKE_TOKEN) == {"x"} && Returned(TOKENS, MAKE_TOKEN, {"n"}) == {"n"}
  {
    var s := TOKENS;
    TokenNames();
    hide Defined, Accessed, Freed, IsNoneLayout;
    assert Allocated(s, USE_TOKEN) == {} && Allocated(s, MAKE_TOKEN) == {"x"};
    assert Real(s, "x") == "x" && Real(s, "n") == "n";
    assert RealNames(s, {"x"}) == {"x"} && RealNames(s, {"n"}) == {"n"} && RealNames(s, {}) == {};
    assert Allocated(s, MAKE_TOKEN) - Defined(MAKE_TOKEN) == {"x"};
    assert Defined(USE_TOKEN) * {} + (Inputs(s, USE_TOKEN) * s.nameToNode - Freed(USE_TOKEN)) == {};
    assert Defined(MAKE_TOKEN) * {"n"} + (Inputs(s, MAKE_TOKEN) * s.nameToNode - Freed(MAKE_TOKEN)) == {"n"};
  }

  /** The token becomes an input of the second partition although nothing can hand it over. */
  lemma {:induction false} UnallocatedFreeStops(skips: seq<bool>)
    requires |skips| == 2
    ensures var ps := [MAKE_TOKEN, USE_TOKEN];
            var sigs := Signatures(TOKENS, ps, skips, 0);
            && Scheduled(TOKENS, ps, {"x"}) && Succeeds(TOKENS, ps, 0) && |sigs| == 2
            && IsNoneLayout(TOKENS, "n")
            && sigs[0].outputNodes == {} && sigs[1].inputNodes == {"n"}
            && RunFrom(TOKENS, ps, sigs, 0, {"x"}).None?
  {
    var s, ps := TOKENS, [MAKE_TOKEN, USE_TOKEN];
    hide Scheduled, FreesAllocated, Inputs, Returned, IsNoneLayout, Succeeds, Signatures, RunFrom;
    hide Defined, Accessed, Freed;
    TokenNames();
    TokenIsScheduled();
    TokenStep();
    SignedRunIsSound(s, ps, skips, {"x"});
    SignaturesFrom(s, ps, skips, 0);
    assert ps[0] == MAKE_TOKEN && ps[1] == USE_TOKEN;
    assert Unmet(s, ps, 2) == {};
    assert Unmet(s, ps, 1) == {"n"};
    var sigs := Signatures(s, ps, skips, 0);
    assert sigs[0 - 0] == SignatureOf(s, MAKE_TOKEN, skips[0], {"n"});
    assert sigs[1 - 0] == SignatureOf(s, USE_TOKEN, skips[1], {});
  }
}
