/** The reference path resolver: one descriptor per path step, written into a
    fixed array of `MaxBTFArgDepth` slots.

    The root's directly nested pointer layers are consumed first, one pointer
    slot each. Every later step names a member of the current struct: an
    intermediate step must lead to a struct (through at most one pointer), the
    last step may lead to anything. Unused slots keep the zero descriptor.

    Go's index-out-of-range panic on a slot beyond the array is modelled as the
    failure `IndexOutOfRange`; a failing test assertion (`t.Fatal`) as the
    failure carrying the error that was checked. */
module BtfResolve {
  import opened Wrappers
  import opened BtfTypes
  import opened BtfMembers

  /** The descriptor of a pointer hop that consumes no member: offset 0, both flags set. */
  const PointerSlot: ConfigBTFArg := ConfigBTFArg(0, 1, 1)

  function Max(a: nat, b: nat): nat {
    if a < b then b else a
  }

  /** `getBTFStruct`: accept the type only if it is directly a struct. */
  function GetBTFStruct(g: Graph, ty: TypeId): (r: Result<TypeId, BtfError>)
    requires ty < |g|
    ensures r.Success? <==> g[ty].Struct?
    ensures r.Success? ==> r.value == ty
    ensures r.Failure? ==> r.error == NotAStruct(ty)
  {
    if g[ty].Struct? then Success(ty) else Failure(NotAStruct(ty))
  }

  /** `getBTFPointerAndSetConfig`: accept the type only if it is directly a
      pointer, and then mark the slot as an initialised pointer step. */
  function PointerAndSetConfig(g: Graph, ty: TypeId, c: ConfigBTFArg): (r: Result<(TypeId, ConfigBTFArg), BtfError>)
    requires WellFormed(g) && ty < |g|
    ensures r.Success? <==> g[ty].Pointer?
    ensures r.Success? ==> r.value.0 < |g| && r.value.0 == g[ty].target
    ensures r.Success? ==> r.value.1 == ConfigBTFArg(c.offset, 1, 1)
    ensures r.Failure? ==> r.error == NotAPointer(ty)
  {
    if g[ty].Pointer? then
      LinkRankDecreases(g, ty);
      Success((g[ty].target, c.(isPointer := 1, isInitialized := 1)))
    else Failure(NotAPointer(ty))
  }

  /** Members found by a lookup lie in the graph. */
  lemma FoundMemberInGraph(g: Graph, ms: seq<Member>, name: string)
    requires WellFormed(g) && MembersIn(ms, |g|)
    ensures Hits(g, ms, name) != [] ==> Hits(g, ms, name)[0].ty < |g|
  {
    if Hits(g, ms, name) != [] {
      var m := Hits(g, ms, name)[0];
      HitsAreExactlyTheReachableNames(g, ms, name, m);
      if m !in ms {
        var i :| 0 <= i < |ms| && m in Nested(g, ms[i]);
        assert TypeClosed(g[ms[i].ty], |g|);
      }
    }
  }

  /** The type a step leads to once its member type is normalised: a pointer is
      chased once, anything else is kept. */
  function Chased(g: Graph, t: TypeId): TypeId
    requires t < |g|
  {
    if g[t].Pointer? then g[t].target else t
  }

  /** The descriptor and next type of a last step through member `m`: the
      member's byte offset, initialised, flagged as a pointer exactly when the
      normalised member type is a pointer or an integer, and leading to the
      pointer's target or else to the normalised type. */
  predicate IsLeafStep(g: Graph, m: Member, next: TypeId, c: ConfigBTFArg)
    requires WellFormed(g) && m.ty < |g|
  {
    var t := Normalize(g, m.ty);
    && c.offset == ByteOffset(m)
    && c.isInitialized == 1
    && (c.isPointer == 1 <==> g[t].Pointer? || g[t].Int?)
    && c.isPointer <= 1
    && next == Chased(g, t)
  }

  /** `getConfigAndNextType`, the last step of a path. */
  function ConfigAndNextType(g: Graph, s: TypeId, name: string): (r: Result<(TypeId, ConfigBTFArg), BtfError>)
    requires WellFormed(g) && s < |g| && g[s].Struct?
    ensures r.Failure? <==> Hits(g, g[s].members, name) == []
    ensures r.Failure? ==> r.error == MemberNotFound(name)
    ensures r.Success? ==>
              && Hits(g, g[s].members, name)[0].ty < |g|
              && IsLeafStep(g, Hits(g, g[s].members, name)[0], r.value.0, r.value.1)
  {
    assert TypeClosed(g[s], |g|);
    FoundMemberInGraph(g, g[s].members, name);
    var member :- FindMember(g, g[s].members, name);
    var c := ConfigBTFArg(ByteOffset(member), 0, 1);
    var ty := Normalize(g, member.ty);
    var ptr := PointerAndSetConfig(g, ty, c);
    if ptr.Success? then Success(ptr.value)
    else if g[ty].Int? then Success((ty, c.(isPointer := 1)))
    else Success((ty, c))
  }

  /** The type an intermediate step through member `m` must reach: the
      normalised member type with one pointer chased, and the pointer's target
      normalised in turn. */
  function StepTarget(g: Graph, m: Member): (r: TypeId)
    requires WellFormed(g) && m.ty < |g|
    ensures r < |g| && !IsWrapper(g[r])
  {
    var t := Normalize(g, m.ty);
    if g[t].Pointer? then LinkRankDecreases(g, t); Normalize(g, g[t].target) else t
  }

  /** The descriptor of an intermediate step through member `m`: the member's
      byte offset, initialised, flagged as a pointer exactly when the normalised
      member type is a pointer. */
  function InnerStepConfig(g: Graph, m: Member): ConfigBTFArg
    requires WellFormed(g) && m.ty < |g|
  {
    ConfigBTFArg(ByteOffset(m), if g[Normalize(g, m.ty)].Pointer? then 1 else 0, 1)
  }

  /** `getConfigAndNextStruct`, an intermediate step: the step must lead to a
      struct, possibly through one pointer and any typedefs and qualifiers on
      either side of it. The test helper checks the pointer's target as it is,
      without normalisation; this is the corrected step the resolver below
      uses (see `ConfigAndNextStructAsWritten`). */
  function ConfigAndNextStruct(g: Graph, s: TypeId, name: string): (r: Result<(TypeId, ConfigBTFArg), BtfError>)
    requires WellFormed(g) && s < |g| && g[s].Struct?
    ensures Hits(g, g[s].members, name) == [] ==> r == Failure(MemberNotFound(name))
    ensures Hits(g, g[s].members, name) != [] ==>
              && Hits(g, g[s].members, name)[0].ty < |g|
              && (r.Success? <==> g[StepTarget(g, Hits(g, g[s].members, name)[0])].Struct?)
              && (r.Failure? ==> r.error == NotAStruct(StepTarget(g, Hits(g, g[s].members, name)[0])))
              && (r.Success? ==> r.value == (StepTarget(g, Hits(g, g[s].members, name)[0]),
                                             InnerStepConfig(g, Hits(g, g[s].members, name)[0])))
  {
    assert TypeClosed(g[s], |g|);
    FoundMemberInGraph(g, g[s].members, name);
    var member :- FindMember(g, g[s].members, name);
    var c := ConfigBTFArg(ByteOffset(member), 0, 1);
    var ty := Normalize(g, member.ty);
    var ptr := PointerAndSetConfig(g, ty, c);
    if ptr.Success? then
      var t :- GetBTFStruct(g, Normalize(g, ptr.value.0));
      Success((t, ptr.value.1))
    else
      var t :- GetBTFStruct(g, ty);
      Success((t, c))
  }

  /** The type the test helper's intermediate step checks: the normalised member
      type with one pointer chased, the target left as it is. */
  function RawStepTarget(g: Graph, m: Member): (r: TypeId)
    requires WellFormed(g) && m.ty < |g|
    ensures r < |g|
  {
    var t := Normalize(g, m.ty);
    if g[t].Pointer? then LinkRankDecreases(g, t); g[t].target else t
  }

  /** `getConfigAndNextStruct` as the test helper writes it: the pointer target
      goes to `getBTFStruct` without normalisation, so a pointer to a typedef'd
      struct is rejected. */
  function ConfigAndNextStructAsWritten(g: Graph, s: TypeId, name: string): (r: Result<(TypeId, ConfigBTFArg), BtfError>)
    requires WellFormed(g) && s < |g| && g[s].Struct?
    ensures Hits(g, g[s].members, name) == [] ==> r == Failure(MemberNotFound(name))
    ensures Hits(g, g[s].members, name) != [] ==>
              && Hits(g, g[s].members, name)[0].ty < |g|
              && (r.Success? <==> g[RawStepTarget(g, Hits(g, g[s].members, name)[0])].Struct?)
              && (r.Failure? ==> r.error == NotAStruct(RawStepTarget(g, Hits(g, g[s].members, name)[0])))
              && (r.Success? ==> r.value == (RawStepTarget(g, Hits(g, g[s].members, name)[0]),
                                             InnerStepConfig(g, Hits(g, g[s].members, name)[0])))
  {
    assert TypeClosed(g[s], |g|);
    FoundMemberInGraph(g, g[s].members, name);
    var member :- FindMember(g, g[s].members, name);
    var c := ConfigBTFArg(ByteOffset(member), 0, 1);
    var ty := Normalize(g, member.ty);
    var ptr := PointerAndSetConfig(g, ty, c);
    if ptr.Success? then
      var t :- GetBTFStruct(g, ptr.value.0);
      Success((t, ptr.value.1))
    else
      var t :- GetBTFStruct(g, ty);
      Success((t, c))
  }

  /** The two intermediate steps differ only where the member is a pointer to a
      typedef or qualifier: everywhere else they agree, and where a wrapped
      struct is reached the corrected step succeeds while the test helper's
      fails on the wrapper. */
  lemma AsWrittenStepDiffersOnlyOnWrappedTargets(g: Graph, s: TypeId, name: string)
    requires WellFormed(g) && s < |g| && g[s].Struct?
    ensures var hits := Hits(g, g[s].members, name);
            hits != [] ==> hits[0].ty < |g|
    ensures var hits := Hits(g, g[s].members, name);
            hits != [] && !IsWrapper(g[RawStepTarget(g, hits[0])]) ==>
              ConfigAndNextStructAsWritten(g, s, name) == ConfigAndNextStruct(g, s, name)
    ensures var hits := Hits(g, g[s].members, name);
            hits != [] && IsWrapper(g[RawStepTarget(g, hits[0])]) && g[StepTarget(g, hits[0])].Struct? ==>
              && ConfigAndNextStructAsWritten(g, s, name) == Failure(NotAStruct(RawStepTarget(g, hits[0])))
              && ConfigAndNextStruct(g, s, name).Success?
  {
    assert TypeClosed(g[s], |g|);
    FoundMemberInGraph(g, g[s].members, name);
    var hits := Hits(g, g[s].members, name);
    if hits != [] {
      var m := hits[0];
      var t := Normalize(g, m.ty);
      if g[t].Pointer? {
        LinkRankDecreases(g, t);
        assert RawStepTarget(g, m) == g[t].target;
        assert StepTarget(g, m) == Normalize(g, g[t].target);
      }
    }
  }

  /** `resolveNestedPtr`: one pointer slot per directly nested pointer layer,
      starting at slot `i`. */
  function ResolveNestedPtr(g: Graph, ty: TypeId, args: seq<ConfigBTFArg>, i: nat)
    : (r: Result<(TypeId, nat, seq<ConfigBTFArg>), BtfError>)
    requires WellFormed(g) && ty < |g| && |args| == MaxBTFArgDepth
    ensures r.Success? <==> PointerDepth(g, ty) == 0 || i + PointerDepth(g, ty) <= |args|
    ensures r.Failure? ==> r.error == IndexOutOfRange(Max(i, |args|))
    ensures r.Success? ==>
              && r.value.0 == PointerBase(g, ty)
              && r.value.1 == i + PointerDepth(g, ty)
              && |r.value.2| == |args|
              && forall j :: 0 <= j < |args| ==>
                   r.value.2[j] == (if i <= j < i + PointerDepth(g, ty) then PointerSlot else args[j])
    decreases ChainRank(g, ty)
  {
    if g[ty].Pointer? then
      if i >= |args| then Failure(IndexOutOfRange(i))
      else
        // the slot is reset, then marked by `getBTFPointerAndSetConfig`, which
        // cannot fail here since `ty` is a pointer
        var hop := PointerAndSetConfig(g, ty, Unused).value;
        LinkRankDecreases(g, ty);
        ResolveNestedPtr(g, hop.0, args[i := hop.1], i + 1)
    else Success((ty, i, args))
  }

  /** The loop of `manuallyResolveBTFPath` from step `i` on. `root` is the type
      left after the root's pointer layers; `cur` is the struct the next named
      step looks into. */
  function Walk(g: Graph, root: TypeId, cur: TypeId, p: seq<string>, i: nat, args: seq<ConfigBTFArg>)
    : (r: Result<seq<ConfigBTFArg>, BtfError>)
    requires WellFormed(g) && root < |g| && cur < |g| && g[cur].Struct?
    requires |args| == MaxBTFArgDepth
    ensures r.Success? ==> |r.value| == MaxBTFArgDepth
    ensures r.Success? ==> forall j :: 0 <= j < i && j < |args| ==> r.value[j] == args[j]
    decreases |p| - i
  {
    if i >= |p| then Success(args)
    else if |p[i]| == 0 then
      // a padding step dereferences the root type, not the current struct
      if i >= |args| then Failure(IndexOutOfRange(i))
      else
        var hop :- PointerAndSetConfig(g, Normalize(g, root), Unused);
        var next :- GetBTFStruct(g, hop.0);
        Walk(g, root, next, p, i + 1, args[i := hop.1])
    else if i < |p| - 1 then
      var step :- ConfigAndNextStruct(g, cur, p[i]);
      if i >= |args| then Failure(IndexOutOfRange(i))
      else Walk(g, root, step.0, p, i + 1, args[i := step.1])
    else
      var step :- ConfigAndNextType(g, cur, p[i]);
      if i >= |args| then Failure(IndexOutOfRange(i))
      else Success(args[i := step.1])
  }

  /** `manuallyResolveBTFPath` on an already padded path. */
  function ManuallyResolveBTFPath(g: Graph, root: TypeId, p: seq<string>): (r: Result<seq<ConfigBTFArg>, BtfError>)
    requires WellFormed(g) && root < |g|
    ensures r.Success? ==> |r.value| == MaxBTFArgDepth
  {
    var nested :- ResolveNestedPtr(g, root, EmptyArgs, 0);
    var base :- GetBTFStruct(g, nested.0);
    Walk(g, base, base, p, nested.1, nested.2)
  }

  /** The loop of `manuallyResolveBTFPath` as the test helper writes it: the
      same as `Walk`, except that an intermediate step is the helper's own
      `ConfigAndNextStructAsWritten`. */
  function WalkAsWritten(g: Graph, root: TypeId, cur: TypeId, p: seq<string>, i: nat, args: seq<ConfigBTFArg>)
    : (r: Result<seq<ConfigBTFArg>, BtfError>)
    requires WellFormed(g) && root < |g| && cur < |g| && g[cur].Struct?
    requires |args| == MaxBTFArgDepth
    ensures r.Success? ==> |r.value| == MaxBTFArgDepth
    ensures r.Success? ==> forall j :: 0 <= j < i && j < |args| ==> r.value[j] == args[j]
    decreases |p| - i
  {
    if i >= |p| then Success(args)
    else if |p[i]| == 0 then
      if i >= |args| then Failure(IndexOutOfRange(i))
      else
        var hop :- PointerAndSetConfig(g, Normalize(g, root), Unused);
        var next :- GetBTFStruct(g, hop.0);
        WalkAsWritten(g, root, next, p, i + 1, args[i := hop.1])
    else if i < |p| - 1 then
      var step :- ConfigAndNextStructAsWritten(g, cur, p[i]);
      if i >= |args| then Failure(IndexOutOfRange(i))
      else WalkAsWritten(g, root, step.0, p, i + 1, args[i := step.1])
    else
      var step :- ConfigAndNextType(g, cur, p[i]);
      if i >= |args| then Failure(IndexOutOfRange(i))
      else Success(args[i := step.1])
  }

  /** `manuallyResolveBTFPath` as the test helper writes it, on an already
      padded path. */
  function ManuallyResolveBTFPathAsWritten(g: Graph, root: TypeId, p: seq<string>): (r: Result<seq<ConfigBTFArg>, BtfError>)
    requires WellFormed(g) && root < |g|
    ensures r.Success? ==> |r.value| == MaxBTFArgDepth
  {
    var nested :- ResolveNestedPtr(g, root, EmptyArgs, 0);
    var base :- GetBTFStruct(g, nested.0);
    WalkAsWritten(g, base, base, p, nested.1, nested.2)
  }

  /** Whatever the literal loop resolves, the corrected loop resolves to the same
      descriptors: the correction only turns some failures into successes. */
  lemma {:induction false} WalkAsWrittenRefinesWalk(g: Graph, root: TypeId, cur: TypeId, p: seq<string>, i: nat, args: seq<ConfigBTFArg>)
    requires WellFormed(g) && root < |g| && cur < |g| && g[cur].Struct?
    requires |args| == MaxBTFArgDepth
    ensures WalkAsWritten(g, root, cur, p, i, args).Success? ==>
              Walk(g, root, cur, p, i, args) == WalkAsWritten(g, root, cur, p, i, args)
    decreases |p| - i
  {
    if i < |p| && WalkAsWritten(g, root, cur, p, i, args).Success? {
      if |p[i]| == 0 {
        var hop := PointerAndSetConfig(g, Normalize(g, root), Unused).value;
        var next := GetBTFStruct(g, hop.0).value;
        WalkAsWrittenRefinesWalk(g, root, next, p, i + 1, args[i := hop.1]);
      } else if i < |p| - 1 {
        AsWrittenStepDiffersOnlyOnWrappedTargets(g, cur, p[i]);
        var step := ConfigAndNextStructAsWritten(g, cur, p[i]).value;
        assert ConfigAndNextStruct(g, cur, p[i]) == Success(step);
        WalkAsWrittenRefinesWalk(g, root, step.0, p, i + 1, args[i := step.1]);
      }
    }
  }

  /** The same for the whole resolution: a literal success is a corrected
      success with the same descriptors, so every layout and bound proved for
      `ManuallyResolveBTFPath` holds of it. */
  lemma ManualResolveAsWrittenRefines(g: Graph, root: TypeId, p: seq<string>)
    requires WellFormed(g) && root < |g|
    ensures ManuallyResolveBTFPathAsWritten(g, root, p).Success? ==>
              ManuallyResolveBTFPath(g, root, p) == ManuallyResolveBTFPathAsWritten(g, root, p)
  {
    var nested := ResolveNestedPtr(g, root, EmptyArgs, 0);
    if nested.Success? && g[nested.value.0].Struct? {
      WalkAsWrittenRefinesWalk(g, nested.value.0, nested.value.0, p, nested.value.1, nested.value.2);
    }
  }

  /** `n` pointer-step slots. */
  function PointerSlots(n: nat): (r: seq<ConfigBTFArg>)
    ensures |r| == n
    ensures forall j :: 0 <= j < n ==> r[j] == PointerSlot
  {
    if n == 0 then [] else [PointerSlot] + PointerSlots(n - 1)
  }

  /** Where the loop starts: after one pointer slot per pointer layer of the
      root, at the first non-pointer type, which must be a struct. A root with
      more layers than the array has slots fails on the first index past it. */
  lemma ManualResolveStartsAtBase(g: Graph, root: TypeId, p: seq<string>)
    requires WellFormed(g) && root < |g|
    ensures var k := PointerDepth(g, root);
            var base := PointerBase(g, root);
            ManuallyResolveBTFPath(g, root, p)
              == if k > MaxBTFArgDepth then Failure(IndexOutOfRange(MaxBTFArgDepth))
                 else if !g[base].Struct? then Failure(NotAStruct(base))
                 else Walk(g, base, base, p, k, PointerSlots(k) + UnusedSlots(MaxBTFArgDepth - k))
  {
    var k := PointerDepth(g, root);
    if k <= MaxBTFArgDepth {
      var padded := ResolveNestedPtr(g, root, EmptyArgs, 0).value.2;
      assert padded == PointerSlots(k) + UnusedSlots(MaxBTFArgDepth - k);
    }
  }

  /** The literal resolution starts the same way: only the loop differs. */
  lemma ManualResolveAsWrittenStartsAtBase(g: Graph, root: TypeId, p: seq<string>)
    requires WellFormed(g) && root < |g|
    ensures var k := PointerDepth(g, root);
            var base := PointerBase(g, root);
            ManuallyResolveBTFPathAsWritten(g, root, p)
              == if k > MaxBTFArgDepth then Failure(IndexOutOfRange(MaxBTFArgDepth))
                 else if !g[base].Struct? then Failure(NotAStruct(base))
                 else WalkAsWritten(g, base, base, p, k, PointerSlots(k) + UnusedSlots(MaxBTFArgDepth - k))
  {
    var k := PointerDepth(g, root);
    if k <= MaxBTFArgDepth {
      var padded := ResolveNestedPtr(g, root, EmptyArgs, 0).value.2;
      assert padded == PointerSlots(k) + UnusedSlots(MaxBTFArgDepth - k);
    }
  }

  /** The slots of `args` below `n` are initialised and those from `n` on are unused. */
  predicate Layout(args: seq<ConfigBTFArg>, n: nat) {
    && n <= |args|
    && (forall j :: 0 <= j < n ==> args[j].isInitialized == 1)
    && (forall j :: n <= j < |args| ==> args[j] == Unused)
  }

  /** The loop keeps the slot layout: it fills the slots from `i` up to the end of
      the path, leaves the earlier slots alone and never touches a later one. */
  lemma {:induction false} WalkKeepsLayout(g: Graph, root: TypeId, cur: TypeId, p: seq<string>, i: nat, args: seq<ConfigBTFArg>)
    requires WellFormed(g) && root < |g| && cur < |g| && g[cur].Struct?
    requires |args| == MaxBTFArgDepth && Layout(args, i)
    ensures var r := Walk(g, root, cur, p, i, args);
            r.Success? ==>
              && Layout(r.value, Max(i, |p|))
              && forall j :: 0 <= j < i ==> r.value[j] == args[j]
    decreases |p| - i
  {
    var r := Walk(g, root, cur, p, i, args);
    if i < |p| && r.Success? {
      if |p[i]| == 0 {
        var hop := PointerAndSetConfig(g, Normalize(g, root), Unused).value;
        var next := GetBTFStruct(g, hop.0).value;
        WalkKeepsLayout(g, root, next, p, i + 1, args[i := hop.1]);
      } else if i < |p| - 1 {
        var step := ConfigAndNextStruct(g, cur, p[i]).value;
        WalkKeepsLayout(g, root, step.0, p, i + 1, args[i := step.1]);
      }
    }
  }

  /** Slot layout of a resolved path: the root's `k` pointer layers fill slots
      `0..k-1` with pointer steps, every slot up to the end of the path is
      initialised, every later slot keeps the zero descriptor, and a success
      never needs more than `MaxBTFArgDepth` slots. */
  lemma ManualResolveLayout(g: Graph, root: TypeId, p: seq<string>)
    requires WellFormed(g) && root < |g|
    ensures var r := ManuallyResolveBTFPath(g, root, p);
            var k := PointerDepth(g, root);
            r.Success? ==>
              && Max(k, |p|) <= MaxBTFArgDepth
              && Layout(r.value, Max(k, |p|))
              && forall j :: 0 <= j < k ==> r.value[j] == PointerSlot
  {
    var nested := ResolveNestedPtr(g, root, EmptyArgs, 0);
    if nested.Success? && g[nested.value.0].Struct? {
      WalkKeepsLayout(g, nested.value.0, nested.value.0, p, nested.value.1, nested.value.2);
    }
  }

  /** Once the root's pointer layers are consumed the root is a struct, so a
      later empty segment (as in `"a..b"` or `"a."`) asks to dereference a struct
      and the resolution fails. */
  lemma {:induction false} WalkRejectsLaterEmptySegment(g: Graph, root: TypeId, cur: TypeId, p: seq<string>, i: nat, args: seq<ConfigBTFArg>, j: nat)
    requires WellFormed(g) && root < |g| && g[root].Struct? && cur < |g| && g[cur].Struct?
    requires |args| == MaxBTFArgDepth
    requires i <= j < |p| && p[j] == ""
    ensures Walk(g, root, cur, p, i, args).Failure?
    decreases |p| - i
  {
    if |p[i]| == 0 {
      // dereferencing the (struct) root fails
      assert Normalize(g, root) == root;
    } else {
      assert i < j;
      var step := ConfigAndNextStruct(g, cur, p[i]);
      if step.Success? && i < |args| {
        WalkRejectsLaterEmptySegment(g, root, step.value.0, p, i + 1, args[i := step.value.1], j);
      }
    }
  }

  /** An empty path segment after the root's pointer padding never resolves. */
  lemma EmptySegmentAfterPaddingFails(g: Graph, root: TypeId, p: seq<string>, j: nat)
    requires WellFormed(g) && root < |g|
    requires PointerDepth(g, root) <= j < |p| && p[j] == ""
    ensures ManuallyResolveBTFPath(g, root, p).Failure?
  {
    var nested := ResolveNestedPtr(g, root, EmptyArgs, 0);
    if nested.Success? && g[nested.value.0].Struct? {
      WalkRejectsLaterEmptySegment(g, nested.value.0, nested.value.0, p, nested.value.1, nested.value.2, j);
    }
  }

  /** Within the array, the loop never indexes out of range. */
  lemma {:induction false} WalkInBounds(g: Graph, root: TypeId, cur: TypeId, p: seq<string>, i: nat, args: seq<ConfigBTFArg>)
    requires WellFormed(g) && root < |g| && cur < |g| && g[cur].Struct?
    requires |args| == MaxBTFArgDepth && |p| <= |args|
    ensures !Walk(g, root, cur, p, i, args).Failure? || !Walk(g, root, cur, p, i, args).error.IndexOutOfRange?
    decreases |p| - i
  {
    if i < |p| {
      if |p[i]| == 0 {
        var hop := PointerAndSetConfig(g, Normalize(g, root), Unused);
        if hop.Success? && GetBTFStruct(g, hop.value.0).Success? {
          WalkInBounds(g, root, hop.value.0, p, i + 1, args[i := hop.value.1]);
        }
      } else if i < |p| - 1 {
        var step := ConfigAndNextStruct(g, cur, p[i]);
        if step.Success? {
          WalkInBounds(g, root, step.value.0, p, i + 1, args[i := step.value.1]);
        }
      }
    }
  }

  /** A padded path that fits the array never makes the resolver index past it;
      one that does not fit never resolves. */
  lemma ResolveDepthBound(g: Graph, root: TypeId, p: seq<string>)
    requires WellFormed(g) && root < |g|
    ensures PointerDepth(g, root) <= |p| <= MaxBTFArgDepth ==>
              var r := ManuallyResolveBTFPath(g, root, p);
              !r.Failure? || !r.error.IndexOutOfRange?
    ensures Max(PointerDepth(g, root), |p|) > MaxBTFArgDepth ==>
              ManuallyResolveBTFPath(g, root, p).Failure?
  {
    ManualResolveLayout(g, root, p);
    if PointerDepth(g, root) <= |p| <= MaxBTFArgDepth {
      var nested := ResolveNestedPtr(g, root, EmptyArgs, 0);
      if nested.Success? && g[nested.value.0].Struct? {
        WalkInBounds(g, nested.value.0, nested.value.0, p, nested.value.1, nested.value.2);
      }
    }
  }

  /** Within the array, the literal loop never indexes out of range either. */
  lemma {:induction false} WalkAsWrittenInBounds(g: Graph, root: TypeId, cur: TypeId, p: seq<string>, i: nat, args: seq<ConfigBTFArg>)
    requires WellFormed(g) && root < |g| && cur < |g| && g[cur].Struct?
    requires |args| == MaxBTFArgDepth && |p| <= |args|
    ensures !WalkAsWritten(g, root, cur, p, i, args).Failure? || !WalkAsWritten(g, root, cur, p, i, args).error.IndexOutOfRange?
    decreases |p| - i
  {
    if i < |p| {
      if |p[i]| == 0 {
        var hop := PointerAndSetConfig(g, Normalize(g, root), Unused);
        if hop.Success? && GetBTFStruct(g, hop.value.0).Success? {
          WalkAsWrittenInBounds(g, root, hop.value.0, p, i + 1, args[i := hop.value.1]);
        }
      } else if i < |p| - 1 {
        var step := ConfigAndNextStructAsWritten(g, cur, p[i]);
        if step.Success? {
          WalkAsWrittenInBounds(g, root, step.value.0, p, i + 1, args[i := step.value.1]);
        }
      }
    }
  }

  /** The depth bound for the literal resolution: a padded path that fits the
      array never makes it index past the array; one that does not fit never
      resolves. */
  lemma ResolveDepthBoundAsWritten(g: Graph, root: TypeId, p: seq<string>)
    requires WellFormed(g) && root < |g|
    ensures PointerDepth(g, root) <= |p| <= MaxBTFArgDepth ==>
              var r := ManuallyResolveBTFPathAsWritten(g, root, p);
              !r.Failure? || !r.error.IndexOutOfRange?
    ensures Max(PointerDepth(g, root), |p|) > MaxBTFArgDepth ==>
              ManuallyResolveBTFPathAsWritten(g, root, p).Failure?
  {
    ResolveDepthBound(g, root, p);
    ManualResolveAsWrittenRefines(g, root, p);
    if PointerDepth(g, root) <= |p| <= MaxBTFArgDepth {
      var nested := ResolveNestedPtr(g, root, EmptyArgs, 0);
      if nested.Success? && g[nested.value.0].Struct? {
        WalkAsWrittenInBounds(g, nested.value.0, nested.value.0, p, nested.value.1, nested.value.2);
      }
    }
  }
}
