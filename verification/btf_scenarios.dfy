/** The resolver tests' scenarios, replayed on type tables that hold the few
    kernel types those tests walk through. Each resolution scenario is stated
    for every well-formed table that contains the types it needs at the given
    ids, and `Kernel` is one such table. */
module BtfScenarios {
  import opened Wrappers
  import opened BtfTypes
  import opened BtfMembers
  import opened BtfResolve
  import opened BtfPath
  import opened BtfHook

  /** `struct linux_binprm { struct mm_struct *mm; }`, where `mm_struct` begins
      with an anonymous struct `{ pgd_t *pgd; unsigned long arg_start; }` and
      `pgd_t` is the kernel's `typedef struct { unsigned long pgd; } pgd_t`. */
  predicate HasBprmTypes(g: Graph) {
    && |g| > 9
    && g[2] == Int("unsigned long")
    && g[3] == Struct("", [Member("pgd", 0, 2)])
    && g[4] == Typedef("pgd_t", 3)
    && g[5] == Pointer(4)
    && g[6] == Struct("", [Member("pgd", 64, 5), Member("arg_start", 128, 2)])
    && g[7] == Struct("mm_struct", [Member("", 0, 6)])
    && g[8] == Pointer(7)
    && g[9] == Struct("linux_binprm", [Member("mm", 0, 8)])
  }

  /** `struct cred { int usage; kuid_t uid; }` with
      `typedef struct { unsigned int val; } kuid_t`, and `struct cred *` at 16. */
  predicate HasCredTypes(g: Graph) {
    && |g| > 16
    && g[1] == Int("int")
    && g[12] == Int("unsigned int")
    && g[13] == Struct("", [Member("val", 0, 12)])
    && g[14] == Typedef("kuid_t", 13)
    && g[15] == Struct("cred", [Member("usage", 0, 1), Member("uid", 32, 14)])
    && g[16] == Pointer(15)
  }

  /** A cut-down kernel type table holding both groups of types and the hooks
      `security_bprm_check(struct linux_binprm *bprm)`,
      `security_inode_copy_up(void *src, struct cred **new)`, `do_sys_open(int dfd)`
      and `wake_up_new_task(struct task_struct *p)`; `task_struct`'s members are
      left out. */
  const Kernel: Graph := [
    /*  0 */ Other("void"),
    /*  1 */ Int("int"),
    /*  2 */ Int("unsigned long"),
    /*  3 */ Struct("", [Member("pgd", 0, 2)]),
    /*  4 */ Typedef("pgd_t", 3),
    /*  5 */ Pointer(4),
    /*  6 */ Struct("", [Member("pgd", 64, 5), Member("arg_start", 128, 2)]),
    /*  7 */ Struct("mm_struct", [Member("", 0, 6)]),
    /*  8 */ Pointer(7),
    /*  9 */ Struct("linux_binprm", [Member("mm", 0, 8)]),
    /* 10 */ Pointer(9),
    /* 11 */ Func("security_bprm_check", [Param("bprm", 10)]),
    /* 12 */ Int("unsigned int"),
    /* 13 */ Struct("", [Member("val", 0, 12)]),
    /* 14 */ Typedef("kuid_t", 13),
    /* 15 */ Struct("cred", [Member("usage", 0, 1), Member("uid", 32, 14)]),
    /* 16 */ Pointer(15),
    /* 17 */ Pointer(16),
    /* 18 */ Pointer(0),
    /* 19 */ Func("security_inode_copy_up", [Param("src", 18), Param("new", 17)]),
    /* 20 */ Func("do_sys_open", [Param("dfd", 1)]),
    /* 21 */ Struct("task_struct", []),
    /* 22 */ Pointer(21),
    /* 23 */ Func("wake_up_new_task", [Param("p", 22)])
  ]

  lemma KernelWellFormed()
    ensures WellFormed(Kernel)
  {
    var k := Kernel;
    assert |k| == 24;
    forall id | 0 <= id < 24
      ensures TypeClosed(k[id], 24)
      ensures IsLink(k[id]) && IsLink(k[Next(k[id])]) ==> Next(k[id]) < id
    {
    }
  }

  lemma KernelHasBprmTypes()
    ensures HasBprmTypes(Kernel)
  {
  }

  lemma KernelHasCredTypes()
    ensures HasCredTypes(Kernel)
  {
  }

  /** Hook lookup: a known hook yields its parameter; an unknown name, and a name
      that belongs to a struct, are not found; index 10 of a one-parameter hook is
      out of range. */
  lemma HookLookupScenarios()
    ensures FindBTFFuncParamFromHook(Kernel, "wake_up_new_task", 0) == Success(Param("p", 22))
    ensures FindBTFFuncParamFromHook(Kernel, "fake_hook", 0) == Failure(HookNotFound("fake_hook"))
    ensures FindBTFFuncParamFromHook(Kernel, "linux_binprm", 0) == Failure(HookNotFound("linux_binprm"))
    ensures FindBTFFuncParamFromHook(Kernel, "wake_up_new_task", 10) == Failure(ArgIndexOutOfRange(10))
  {
    assert IsFuncNamed(Kernel[23], "wake_up_new_task");
    forall id | 0 <= id < 23
      ensures !IsFuncNamed(Kernel[id], "wake_up_new_task")
    {
    }
    forall id | 0 <= id < |Kernel|
      ensures !IsFuncNamed(Kernel[id], "fake_hook") && !IsFuncNamed(Kernel[id], "linux_binprm")
    {
    }
  }

  /** The second parameter of `security_inode_copy_up` is the `struct cred **`
      whose target the double-pointer scenario starts from. */
  lemma DoublePointerHookScenario()
    ensures FindBTFFuncParamFromHook(Kernel, "security_inode_copy_up", 1) == Success(Param("new", 17))
    ensures Kernel[17] == Pointer(16)
  {
    assert IsFuncNamed(Kernel[19], "security_inode_copy_up");
    forall id | 0 <= id < 19
      ensures !IsFuncNamed(Kernel[id], "security_inode_copy_up")
    {
    }
  }

  /** `s` split on dots is `parts`. */
  lemma SplitsInto(s: string, parts: seq<string>)
    requires |parts| >= 1 && forall k :: 0 <= k < |parts| ==> '.' !in parts[k]
    requires s == Join(parts, '.')
    ensures Split(s, '.') == parts
  {
    SplitJoin(parts, '.');
  }

  // Single resolution steps on the `linux_binprm` types.

  lemma StepMm(g: Graph)
    requires WellFormed(g) && HasBprmTypes(g)
    ensures ConfigAndNextStruct(g, 9, "mm") == Success((7, PointerSlot))
  {
    var mm := Member("mm", 0, 8);
    assert Nested(g, mm) == [];
    assert Hits(g, [mm], "mm") == [mm];
    assert Normalize(g, 8) == 8;
    assert StepTarget(g, mm) == 7;
  }

  /** `pgd` is found in `mm_struct` through its anonymous member. */
  lemma PgdHit(g: Graph)
    requires WellFormed(g) && HasBprmTypes(g)
    ensures Hits(g, [Member("", 0, 6)], "pgd") == [Member("pgd", 64, 5)]
  {
    var anon := Member("", 0, 6);
    var pgd := Member("pgd", 64, 5);
    var argStart := Member("arg_start", 128, 2);
    assert Nested(g, anon) == [pgd, argStart];
    assert Named([pgd, argStart], "pgd") == [pgd];
  }

  lemma StepPgd(g: Graph)
    requires WellFormed(g) && HasBprmTypes(g)
    ensures ConfigAndNextStruct(g, 7, "pgd") == Success((3, ConfigBTFArg(8, 1, 1)))
  {
    var pgd := Member("pgd", 64, 5);
    PgdHit(g);
    assert Normalize(g, 5) == 5;
    assert Normalize(g, 4) == 3;
    assert StepTarget(g, pgd) == 3;
  }

  /** The test helper's own intermediate step stops at `pgd`: the pointer leads
      to the `pgd_t` typedef, which is not itself a struct. `mm.pgd.pgd` and
      `mm.pgd.fail` both take this step second, so the helper rejects both with
      `NotAStruct` at the typedef, where the corrected step reaches the struct
      behind it. */
  lemma AsWrittenStepRejectsTypedefTarget(g: Graph)
    requires WellFormed(g) && HasBprmTypes(g)
    ensures ConfigAndNextStructAsWritten(g, 7, "pgd") == Failure(NotAStruct(4))
    ensures ConfigAndNextStruct(g, 7, "pgd") == Success((3, ConfigBTFArg(8, 1, 1)))
  {
    var pgd := Member("pgd", 64, 5);
    PgdHit(g);
    assert Normalize(g, 5) == 5;
    assert RawStepTarget(g, pgd) == 4;
    StepPgd(g);
  }

  lemma StepArgStart(g: Graph)
    requires WellFormed(g) && HasBprmTypes(g)
    ensures ConfigAndNextType(g, 7, "arg_start") == Success((2, ConfigBTFArg(16, 1, 1)))
  {
    var anon := Member("", 0, 6);
    var pgd := Member("pgd", 64, 5);
    var argStart := Member("arg_start", 128, 2);
    assert Nested(g, anon) == [pgd, argStart];
    assert Named([pgd, argStart], "arg_start") == [argStart];
    assert Hits(g, [anon], "arg_start") == [argStart];
    assert Normalize(g, 2) == 2;
  }

  lemma StepPgdLeaf(g: Graph)
    requires WellFormed(g) && HasBprmTypes(g)
    ensures ConfigAndNextType(g, 3, "pgd") == Success((2, ConfigBTFArg(0, 1, 1)))
  {
    var pgd := Member("pgd", 0, 2);
    assert Nested(g, pgd) == [];
    assert Hits(g, [pgd], "pgd") == [pgd];
    assert Normalize(g, 2) == 2;
  }

  lemma StepsFail(g: Graph)
    requires WellFormed(g) && HasBprmTypes(g)
    ensures ConfigAndNextType(g, 9, "fail") == Failure(MemberNotFound("fail"))
    ensures ConfigAndNextType(g, 7, "fail") == Failure(MemberNotFound("fail"))
    ensures ConfigAndNextType(g, 3, "fail") == Failure(MemberNotFound("fail"))
  {
    var mm := Member("mm", 0, 8);
    var anon := Member("", 0, 6);
    var pgd := Member("pgd", 0, 2);
    var pgd64 := Member("pgd", 64, 5);
    var argStart := Member("arg_start", 128, 2);
    assert Nested(g, mm) == [] && Nested(g, pgd) == [];
    assert Hits(g, [mm], "fail") == [];
    assert Nested(g, anon) == [pgd64, argStart];
    assert Named([pgd64, argStart], "fail") == [];
    assert Hits(g, [anon], "fail") == [];
    assert Hits(g, [pgd], "fail") == [];
  }

  // Single resolution steps on the `cred` types.

  lemma StepUid(g: Graph)
    requires WellFormed(g) && HasCredTypes(g)
    ensures ConfigAndNextStruct(g, 15, "uid") == Success((13, ConfigBTFArg(4, 0, 1)))
  {
    var usage := Member("usage", 0, 1);
    var uid := Member("uid", 32, 14);
    assert Nested(g, usage) == [] && Nested(g, uid) == [];
    assert Hits(g, [uid], "uid") == [uid];
    assert Hits(g, [usage, uid], "uid") == [uid];
    assert Normalize(g, 13) == 13;
    assert Normalize(g, 14) == 13;
    assert StepTarget(g, uid) == 13;
  }

  lemma StepVal(g: Graph)
    requires WellFormed(g) && HasCredTypes(g)
    ensures ConfigAndNextType(g, 13, "val") == Success((12, ConfigBTFArg(0, 1, 1)))
  {
    var val := Member("val", 0, 12);
    assert Nested(g, val) == [];
    assert Hits(g, [val], "val") == [val];
    assert Normalize(g, 12) == 12;
  }

  // Whole paths. Each scenario chains three facts: the path the dotted string
  // pads to, where the loop starts, and what the loop computes from there.

  /** A root that is not a pointer gets no padding. */
  lemma UnpaddedPath(g: Graph, root: TypeId, s: string, p: seq<string>)
    requires WellFormed(g) && root < |g| && !g[root].Pointer?
    requires Split(s, '.') == p
    ensures BuildPathFromString(g, root, s).0 == p
  {
    assert PointerDepth(g, root) == 0;
  }

  /** A struct root starts the loop at slot 0 on the empty array. */
  lemma StructRootStart(g: Graph, root: TypeId, p: seq<string>)
    requires WellFormed(g) && root < |g| && g[root].Struct?
    ensures ManuallyResolveBTFPath(g, root, p)
            == Walk(g, root, root, p, 0, PointerSlots(0) + UnusedSlots(MaxBTFArgDepth))
  {
    assert PointerDepth(g, root) == 0 && PointerBase(g, root) == root;
    ManualResolveStartsAtBase(g, root, p);
  }

  /** The loop over `["mm", "arg_start"]` from `linux_binprm`. */
  lemma WalkMmArgStart(g: Graph, a: seq<ConfigBTFArg>)
    requires WellFormed(g) && HasBprmTypes(g) && |a| == MaxBTFArgDepth
    ensures Walk(g, 9, 9, ["mm", "arg_start"], 0, a)
            == Success(a[0 := PointerSlot][1 := ConfigBTFArg(16, 1, 1)])
  {
    StepMm(g);
    StepArgStart(g);
  }

  lemma TwoSlotsFilled(x: ConfigBTFArg, y: ConfigBTFArg)
    ensures (PointerSlots(0) + UnusedSlots(MaxBTFArgDepth))[0 := x][1 := y] == [x, y] + UnusedSlots(8)
  {
  }

  /** `mm.arg_start` reaches into the anonymous struct of `mm_struct`: the second
      slot holds `arg_start`'s own offset (16 bytes) and, as an integer leaf, the
      pointer flag. */
  lemma AnonymousMemberScenario(g: Graph)
    requires WellFormed(g) && HasBprmTypes(g)
    ensures BuildExpectedBTFConfig(g, 9, "mm.arg_start")
            == Success([PointerSlot, ConfigBTFArg(16, 1, 1)] + UnusedSlots(8))
  {
    SplitsInto("mm.arg_start", ["mm", "arg_start"]);
    UnpaddedPath(g, 9, "mm.arg_start", ["mm", "arg_start"]);
    StructRootStart(g, 9, ["mm", "arg_start"]);
    WalkMmArgStart(g, PointerSlots(0) + UnusedSlots(MaxBTFArgDepth));
    TwoSlotsFilled(PointerSlot, ConfigBTFArg(16, 1, 1));
  }

  /** The loop over `["mm", "pgd", "pgd"]` from `linux_binprm`. */
  lemma WalkMmPgdPgd(g: Graph, a: seq<ConfigBTFArg>)
    requires WellFormed(g) && HasBprmTypes(g) && |a| == MaxBTFArgDepth
    ensures Walk(g, 9, 9, ["mm", "pgd", "pgd"], 0, a)
            == Success(a[0 := PointerSlot][1 := ConfigBTFArg(8, 1, 1)][2 := ConfigBTFArg(0, 1, 1)])
  {
    var p := ["mm", "pgd", "pgd"];
    StepMm(g);
    StepPgd(g);
    StepPgdLeaf(g);
    var a2 := a[0 := PointerSlot][1 := ConfigBTFArg(8, 1, 1)];
    assert Walk(g, 9, 3, p, 2, a2) == Success(a2[2 := ConfigBTFArg(0, 1, 1)]);
  }

  lemma ThreeSlotsFilled(k: nat, x: ConfigBTFArg, y: ConfigBTFArg, z: ConfigBTFArg)
    requires k <= 1
    ensures k == 0 ==> (PointerSlots(0) + UnusedSlots(MaxBTFArgDepth))[0 := x][1 := y][2 := z]
                       == [x, y, z] + UnusedSlots(7)
    ensures k == 1 ==> (PointerSlots(1) + UnusedSlots(MaxBTFArgDepth - 1))[1 := y][2 := z]
                       == [PointerSlot, y, z] + UnusedSlots(7)
  {
  }

  /** `mm.pgd.pgd` goes through the anonymous struct to a pointer member and on,
      through the `pgd_t` typedef, into the struct it names. */
  lemma PathIsAccessibleScenario(g: Graph)
    requires WellFormed(g) && HasBprmTypes(g)
    ensures BuildExpectedBTFConfig(g, 9, "mm.pgd.pgd")
            == Success([PointerSlot, ConfigBTFArg(8, 1, 1), ConfigBTFArg(0, 1, 1)] + UnusedSlots(7))
  {
    SplitsInto("mm.pgd.pgd", ["mm", "pgd", "pgd"]);
    UnpaddedPath(g, 9, "mm.pgd.pgd", ["mm", "pgd", "pgd"]);
    StructRootStart(g, 9, ["mm", "pgd", "pgd"]);
    WalkMmPgdPgd(g, PointerSlots(0) + UnusedSlots(MaxBTFArgDepth));
    ThreeSlotsFilled(0, PointerSlot, ConfigBTFArg(8, 1, 1), ConfigBTFArg(0, 1, 1));
  }

  /** The literal loop over `["mm", "pgd", last]` from `linux_binprm` stops at
      `pgd`, whatever the last segment: the `mm` step is the same in both
      readings, and the `pgd` step meets the `pgd_t` typedef. */
  lemma WalkAsWrittenStopsAtPgd(g: Graph, a: seq<ConfigBTFArg>, last: string)
    requires WellFormed(g) && HasBprmTypes(g) && |a| == MaxBTFArgDepth
    ensures WalkAsWritten(g, 9, 9, ["mm", "pgd", last], 0, a) == Failure(NotAStruct(4))
  {
    var p := ["mm", "pgd", last];
    AsWrittenStepMm(g);
    AsWrittenStepRejectsTypedefTarget(g);
    assert WalkAsWritten(g, 9, 7, p, 1, a[0 := PointerSlot]) == Failure(NotAStruct(4));
  }

  /** At `mm` the pointer leads straight to `mm_struct`, so the literal step
      takes it as the corrected one does. */
  lemma AsWrittenStepMm(g: Graph)
    requires WellFormed(g) && HasBprmTypes(g)
    ensures ConfigAndNextStructAsWritten(g, 9, "mm") == Success((7, PointerSlot))
  {
    var mm := Member("mm", 0, 8);
    assert Nested(g, mm) == [];
    assert Hits(g, [mm], "mm") == [mm];
    assert Normalize(g, 8) == 8;
    assert RawStepTarget(g, mm) == 7;
    StepMm(g);
    AsWrittenStepDiffersOnlyOnWrappedTargets(g, 9, "mm");
  }

  /** A struct root starts the literal loop at slot 0 on the empty array. */
  lemma StructRootStartAsWritten(g: Graph, root: TypeId, p: seq<string>)
    requires WellFormed(g) && root < |g| && g[root].Struct?
    ensures ManuallyResolveBTFPathAsWritten(g, root, p) == WalkAsWritten(g, root, root, p, 0, EmptyArgs)
  {
    assert ResolveNestedPtr(g, root, EmptyArgs, 0) == Success((root, 0, EmptyArgs));
  }

  /** The literal resolver stops at `pgd` on `["mm", "pgd", last]`. */
  lemma AsWrittenResolveStopsAtPgd(g: Graph, last: string)
    requires WellFormed(g) && HasBprmTypes(g)
    ensures ManuallyResolveBTFPathAsWritten(g, 9, ["mm", "pgd", last]) == Failure(NotAStruct(4))
  {
    StructRootStartAsWritten(g, 9, ["mm", "pgd", last]);
    WalkAsWrittenStopsAtPgd(g, EmptyArgs, last);
  }

  /** The dotted path `mm.pgd.<last>` is the unpadded `["mm", "pgd", last]`. */
  lemma MmPgdPath(g: Graph, s: string, last: string)
    requires WellFormed(g) && HasBprmTypes(g)
    requires '.' !in last && s == "mm.pgd." + last
    ensures BuildPathFromString(g, 9, s).0 == ["mm", "pgd", last]
  {
    var ps := ["mm", "pgd", last];
    assert ps[1..] == ["pgd", last] && ps[1..][1..] == [last];
    assert Join(["pgd", last], '.') == "pgd" + ['.'] + last;
    assert Join(ps, '.') == "mm" + ['.'] + ("pgd" + ['.'] + last);
    assert Join(ps, '.') == s;
    SplitsInto(s, ["mm", "pgd", last]);
    UnpaddedPath(g, 9, s, ["mm", "pgd", last]);
  }

  /** The literal helper stops at `pgd` on the dotted path `mm.pgd.<last>`. */
  lemma AsWrittenDottedStopsAtPgd(g: Graph, s: string, last: string)
    requires WellFormed(g) && HasBprmTypes(g)
    requires '.' !in last && s == "mm.pgd." + last
    ensures BuildExpectedBTFConfigAsWritten(g, 9, s) == Failure(NotAStruct(4))
  {
    MmPgdPath(g, s, last);
    AsWrittenResolveStopsAtPgd(g, last);
  }

  /** The literal helper rejects `mm.pgd.pgd` with `NotAStruct` at the `pgd_t`
      typedef, where the corrected resolver resolves it. */
  lemma AsWrittenPathIsAccessible(g: Graph)
    requires WellFormed(g) && HasBprmTypes(g)
    ensures ManuallyResolveBTFPathAsWritten(g, 9, ["mm", "pgd", "pgd"]) == Failure(NotAStruct(4))
    ensures BuildExpectedBTFConfigAsWritten(g, 9, "mm.pgd.pgd") == Failure(NotAStruct(4))
  {
    AsWrittenResolveStopsAtPgd(g, "pgd");
    AsWrittenDottedStopsAtPgd(g, "mm.pgd.pgd", "pgd");
  }

  /** The literal helper rejects `mm.pgd.fail` with `NotAStruct` at the `pgd_t`
      typedef before it looks for `fail`, where the corrected resolver reports
      the missing attribute. */
  lemma AsWrittenDeepAttribute(g: Graph)
    requires WellFormed(g) && HasBprmTypes(g)
    ensures ManuallyResolveBTFPathAsWritten(g, 9, ["mm", "pgd", "fail"]) == Failure(NotAStruct(4))
    ensures BuildExpectedBTFConfigAsWritten(g, 9, "mm.pgd.fail") == Failure(NotAStruct(4))
  {
    AsWrittenResolveStopsAtPgd(g, "fail");
    AsWrittenDottedStopsAtPgd(g, "mm.pgd.fail", "fail");
  }

  /** A root with one pointer layer gets one empty segment in front. */
  lemma OncePaddedPath(g: Graph, root: TypeId, s: string, p: seq<string>)
    requires WellFormed(g) && root < |g| && PointerDepth(g, root) == 1
    requires Split(s, '.') == p
    ensures BuildPathFromString(g, root, s).0 == [""] + p
  {
    var r := BuildPathFromString(g, root, s).0;
    assert r[1..] == p;
  }

  /** `uid.val` from `struct cred *` pads to `["", "uid", "val"]`. */
  lemma CredPointerPath(g: Graph)
    requires WellFormed(g) && HasCredTypes(g)
    ensures BuildPathFromString(g, 16, "uid.val").0 == ["", "uid", "val"]
  {
    SplitsInto("uid.val", ["uid", "val"]);
    assert PointerDepth(g, 15) == 0 && PointerDepth(g, 16) == 1;
    OncePaddedPath(g, 16, "uid.val", ["uid", "val"]);
  }

  /** From `struct cred *` the loop starts after the padding slot, at `cred`. */
  lemma CredPointerStart(g: Graph, p: seq<string>)
    requires WellFormed(g) && HasCredTypes(g)
    ensures ManuallyResolveBTFPath(g, 16, p)
            == Walk(g, 15, 15, p, 1, PointerSlots(1) + UnusedSlots(MaxBTFArgDepth - 1))
  {
    assert PointerDepth(g, 15) == 0;
    assert PointerDepth(g, 16) == 1 && PointerBase(g, 16) == 15;
    ManualResolveStartsAtBase(g, 16, p);
  }

  /** The loop over `["", "uid", "val"]` from `cred`, after the padding slot. */
  lemma WalkUidVal(g: Graph, a: seq<ConfigBTFArg>)
    requires WellFormed(g) && HasCredTypes(g) && |a| == MaxBTFArgDepth
    ensures Walk(g, 15, 15, ["", "uid", "val"], 1, a)
            == Success(a[1 := ConfigBTFArg(4, 0, 1)][2 := ConfigBTFArg(0, 1, 1)])
  {
    StepUid(g);
    StepVal(g);
  }

  /** `uid.val` on a `struct cred *` argument: one padding slot for the pointer,
      then `uid` (4 bytes in, through the `kuid_t` typedef) and the integer `val`. */
  lemma DoublePointerScenario(g: Graph)
    requires WellFormed(g) && HasCredTypes(g)
    ensures BuildExpectedBTFConfig(g, 16, "uid.val")
            == Success([PointerSlot, ConfigBTFArg(4, 0, 1), ConfigBTFArg(0, 1, 1)] + UnusedSlots(7))
  {
    CredPointerPath(g);
    CredPointerStart(g, ["", "uid", "val"]);
    WalkUidVal(g, PointerSlots(1) + UnusedSlots(MaxBTFArgDepth - 1));
    ThreeSlotsFilled(1, PointerSlot, ConfigBTFArg(4, 0, 1), ConfigBTFArg(0, 1, 1));
  }

  /** The loops over `["fail"]` and `["mm", "fail"]`. */
  lemma WalksFailEarly(g: Graph, a: seq<ConfigBTFArg>)
    requires WellFormed(g) && HasBprmTypes(g) && |a| == MaxBTFArgDepth
    ensures Walk(g, 9, 9, ["fail"], 0, a) == Failure(MemberNotFound("fail"))
    ensures Walk(g, 9, 9, ["mm", "fail"], 0, a) == Failure(MemberNotFound("fail"))
  {
    StepMm(g);
    StepsFail(g);
  }

  /** The last step of the loop over `["mm", "pgd", "fail"]`, in `pgd_t`. */
  lemma WalkFailsInPgd(g: Graph, a: seq<ConfigBTFArg>)
    requires WellFormed(g) && HasBprmTypes(g) && |a| == MaxBTFArgDepth
    ensures Walk(g, 9, 3, ["mm", "pgd", "fail"], 2, a) == Failure(MemberNotFound("fail"))
  {
    StepsFail(g);
  }

  /** The loop over `["mm", "pgd", "fail"]`. */
  lemma WalkFailsLate(g: Graph, a: seq<ConfigBTFArg>)
    requires WellFormed(g) && HasBprmTypes(g) && |a| == MaxBTFArgDepth
    ensures Walk(g, 9, 9, ["mm", "pgd", "fail"], 0, a) == Failure(MemberNotFound("fail"))
  {
    StepMm(g);
    StepPgd(g);
    WalkFailsInPgd(g, a[0 := PointerSlot][1 := ConfigBTFArg(8, 1, 1)]);
  }

  /** An unknown attribute fails naming it, whatever its depth. */
  lemma UnknownAttributeScenarios(g: Graph)
    requires WellFormed(g) && HasBprmTypes(g)
    ensures BuildExpectedBTFConfig(g, 9, "fail") == Failure(MemberNotFound("fail"))
    ensures BuildExpectedBTFConfig(g, 9, "mm.fail") == Failure(MemberNotFound("fail"))
    ensures BuildExpectedBTFConfig(g, 9, "mm.pgd.fail") == Failure(MemberNotFound("fail"))
  {
    UnknownTopLevelAttribute(g);
    UnknownNestedAttribute(g);
    UnknownDeepAttribute(g);
  }

  lemma UnknownTopLevelAttribute(g: Graph)
    requires WellFormed(g) && HasBprmTypes(g)
    ensures BuildExpectedBTFConfig(g, 9, "fail") == Failure(MemberNotFound("fail"))
  {
    SplitsInto("fail", ["fail"]);
    UnpaddedPath(g, 9, "fail", ["fail"]);
    StructRootStart(g, 9, ["fail"]);
    WalksFailEarly(g, PointerSlots(0) + UnusedSlots(MaxBTFArgDepth));
  }

  lemma UnknownNestedAttribute(g: Graph)
    requires WellFormed(g) && HasBprmTypes(g)
    ensures BuildExpectedBTFConfig(g, 9, "mm.fail") == Failure(MemberNotFound("fail"))
  {
    SplitsInto("mm.fail", ["mm", "fail"]);
    UnpaddedPath(g, 9, "mm.fail", ["mm", "fail"]);
    StructRootStart(g, 9, ["mm", "fail"]);
    WalksFailEarly(g, PointerSlots(0) + UnusedSlots(MaxBTFArgDepth));
  }

  lemma UnknownDeepAttribute(g: Graph)
    requires WellFormed(g) && HasBprmTypes(g)
    ensures BuildExpectedBTFConfig(g, 9, "mm.pgd.fail") == Failure(MemberNotFound("fail"))
  {
    SplitsInto("mm.pgd.fail", ["mm", "pgd", "fail"]);
    UnpaddedPath(g, 9, "mm.pgd.fail", ["mm", "pgd", "fail"]);
    StructRootStart(g, 9, ["mm", "pgd", "fail"]);
    WalkFailsLate(g, PointerSlots(0) + UnusedSlots(MaxBTFArgDepth));
  }

  /** A field step on an `int` argument fails: the root is not a struct. */
  lemma ScalarRootScenario(g: Graph)
    requires WellFormed(g) && HasCredTypes(g)
    ensures BuildExpectedBTFConfig(g, 1, "fail") == Failure(NotAStruct(1))
  {
    SplitsInto("fail", ["fail"]);
    assert PointerDepth(g, 1) == 0 && PointerBase(g, 1) == 1;
    ManualResolveStartsAtBase(g, 1, ["fail"]);
  }

  /** The scenarios hold on the cut-down kernel table. */
  lemma KernelScenarios()
    ensures WellFormed(Kernel)
    ensures BuildExpectedBTFConfig(Kernel, 9, "mm.arg_start")
            == Success([PointerSlot, ConfigBTFArg(16, 1, 1)] + UnusedSlots(8))
    ensures BuildExpectedBTFConfig(Kernel, 16, "uid.val")
            == Success([PointerSlot, ConfigBTFArg(4, 0, 1), ConfigBTFArg(0, 1, 1)] + UnusedSlots(7))
    ensures BuildExpectedBTFConfig(Kernel, 9, "mm.pgd.fail") == Failure(MemberNotFound("fail"))
    ensures BuildExpectedBTFConfig(Kernel, 1, "fail") == Failure(NotAStruct(1))
  {
    KernelWellFormed();
    KernelHasBprmTypes();
    KernelHasCredTypes();
    AnonymousMemberScenario(Kernel);
    DoublePointerScenario(Kernel);
    UnknownAttributeScenarios(Kernel);
    ScalarRootScenario(Kernel);
  }
}
