/** The kernel type graph (BTF) as the path resolver sees it, the descriptor slot
    written for each resolution step, and the normaliser that strips qualifiers.

    A loaded BTF database is a table of types addressed by type id; a type refers
    to other types by id, so self-referential structs (cycles through pointers)
    are representable. */
module BtfTypes {

  /** Index of a type in the loaded table. */
  type TypeId = nat

  /** Go `uint32` and `uint16`, the field widths of the descriptor ABI. */
  type U32 = x: nat | x < 0x1_0000_0000
  type U16 = x: nat | x < 0x1_0000

  /** A struct or union member. BTF stores the member offset in bits (a `uint32`);
      an anonymous member has the empty name. */
  datatype Member = Member(name: string, bitOffset: U32, ty: TypeId)

  /** A parameter of a function prototype. */
  datatype Param = Param(name: string, ty: TypeId)

  /** The kinds the resolver distinguishes. `Typedef`, `Const`, `Volatile` and
      `Restrict` are transparent wrappers; `Other` stands for every kind the
      resolver never inspects (void, arrays, enums, floats, ...). */
  datatype Type =
    | Struct(name: string, members: seq<Member>)
    | Union(name: string, members: seq<Member>)
    | Pointer(target: TypeId)
    | Int(name: string)
    | Typedef(name: string, inner: TypeId)
    | Const(inner: TypeId)
    | Volatile(inner: TypeId)
    | Restrict(inner: TypeId)
    | Func(name: string, params: seq<Param>)
    | Other(name: string)

  type Graph = seq<Type>

  predicate IsWrapper(t: Type) {
    t.Typedef? || t.Const? || t.Volatile? || t.Restrict?
  }

  /** A link is a type that merely designates another type: a pointer or a wrapper. */
  predicate IsLink(t: Type) {
    t.Pointer? || IsWrapper(t)
  }

  function Next(t: Type): TypeId
    requires IsLink(t)
  {
    if t.Pointer? then t.target else t.inner
  }

  predicate MembersIn(ms: seq<Member>, n: nat) {
    forall i :: 0 <= i < |ms| ==> ms[i].ty < n
  }

  predicate ParamsIn(ps: seq<Param>, n: nat) {
    forall i :: 0 <= i < |ps| ==> ps[i].ty < n
  }

  /** Every id mentioned by `t` names a type of a table of `n` types. */
  predicate TypeClosed(t: Type, n: nat) {
    match t
    case Struct(_, ms) => MembersIn(ms, n)
    case Union(_, ms) => MembersIn(ms, n)
    case Func(_, ps) => ParamsIn(ps, n)
    case Int(_) => true
    case Other(_) => true
    case _ => Next(t) < n
  }

  /** A loaded type table: closed under references, and every chain of links
      (pointers and qualifiers) is finite. Chains are finite in any table a C
      compiler can produce, since C has no pointer-only or typedef-only cycles;
      the model states this by letting a link that leads to another link lead
      to a smaller id, which any acyclic chain structure admits after renumbering. */
  predicate WellFormed(g: Graph) {
    && (forall id :: 0 <= id < |g| ==> TypeClosed(g[id], |g|))
    && (forall id :: 0 <= id < |g| && IsLink(g[id]) && Next(g[id]) < |g| && IsLink(g[Next(g[id])])
          ==> Next(g[id]) < id)
  }

  /** Termination measure for walks along links. */
  function ChainRank(g: Graph, id: TypeId): nat
    requires id < |g|
  {
    if IsLink(g[id]) then id + 1 else 0
  }

  lemma LinkRankDecreases(g: Graph, id: TypeId)
    requires WellFormed(g) && id < |g| && IsLink(g[id])
    ensures Next(g[id]) < |g|
    ensures ChainRank(g, Next(g[id])) < ChainRank(g, id)
  {
    assert TypeClosed(g[id], |g|);
  }

  /** `r` lies on the chain of typedef and qualifier layers that starts at `id`
      (`id` itself included). */
  predicate StripsTo(g: Graph, id: TypeId, r: TypeId)
    requires WellFormed(g) && id < |g|
    decreases ChainRank(g, id)
  {
    if id == r then true
    else if IsWrapper(g[id]) then
      LinkRankDecreases(g, id);
      StripsTo(g, g[id].inner, r)
    else false
  }

  /** A wrapper chain has one end: two non-wrappers on the chain from `id` are
      the same type. */
  lemma {:induction false} StrippedEndIsUnique(g: Graph, id: TypeId, a: TypeId, b: TypeId)
    requires WellFormed(g) && id < |g| && a < |g| && b < |g|
    requires StripsTo(g, id, a) && !IsWrapper(g[a])
    requires StripsTo(g, id, b) && !IsWrapper(g[b])
    ensures a == b
    decreases ChainRank(g, id)
  {
    if id != a && id != b {
      LinkRankDecreases(g, id);
      StrippedEndIsUnique(g, g[id].inner, a, b);
    }
  }

  /** `ResolveNestedTypes`: strip typedef and qualifier layers. It never follows a
      pointer, so a cycle through pointers cannot make it diverge. */
  function Normalize(g: Graph, id: TypeId): (r: TypeId)
    requires WellFormed(g) && id < |g|
    ensures r < |g|
    ensures !IsWrapper(g[r])
    ensures !IsWrapper(g[id]) ==> r == id
    ensures StripsTo(g, id, r)
    decreases ChainRank(g, id)
  {
    if IsWrapper(g[id]) then
      LinkRankDecreases(g, id);
      Normalize(g, g[id].inner)
    else id
  }

  /** `Normalize` returns the end of `id`'s wrapper chain and nothing else: any
      non-wrapper reached along the chain is its result. */
  lemma NormalizeIsChainEnd(g: Graph, id: TypeId, r: TypeId)
    requires WellFormed(g) && id < |g| && r < |g|
    ensures StripsTo(g, id, r) && !IsWrapper(g[r]) <==> r == Normalize(g, id)
  {
    if StripsTo(g, id, r) && !IsWrapper(g[r]) {
      StrippedEndIsUnique(g, id, r, Normalize(g, id));
    }
  }

  /** Number of directly nested pointer layers at `id` (no normalisation between them). */
  function PointerDepth(g: Graph, id: TypeId): nat
    requires WellFormed(g) && id < |g|
    decreases ChainRank(g, id)
  {
    if g[id].Pointer? then
      LinkRankDecreases(g, id);
      1 + PointerDepth(g, g[id].target)
    else 0
  }

  /** The first type that is not a pointer, following pointers only. */
  function PointerBase(g: Graph, id: TypeId): (r: TypeId)
    requires WellFormed(g) && id < |g|
    ensures r < |g| && !g[r].Pointer?
    decreases ChainRank(g, id)
  {
    if g[id].Pointer? then
      LinkRankDecreases(g, id);
      PointerBase(g, g[id].target)
    else id
  }

  /** Length of the descriptor array shared with the kernel-side reader
      (`api.MaxBTFArgDepth`). */
  const MaxBTFArgDepth: nat := 10

  /** `api.ConfigBTFArg`: one step of a resolved path. `isPointer` and
      `isInitialized` are 0/1 flags stored as `uint16`. */
  datatype ConfigBTFArg = ConfigBTFArg(offset: U32, isPointer: U16, isInitialized: U16)

  /** The Go zero value of a descriptor: an unused slot. */
  const Unused: ConfigBTFArg := ConfigBTFArg(0, 0, 0)

  /** `n` unused slots. */
  function UnusedSlots(n: nat): (r: seq<ConfigBTFArg>)
    ensures |r| == n
    ensures forall j :: 0 <= j < n ==> r[j] == Unused
  {
    if n == 0 then [] else [Unused] + UnusedSlots(n - 1)
  }

  /** The descriptor array before resolution: every slot unused. */
  const EmptyArgs: seq<ConfigBTFArg> := UnusedSlots(MaxBTFArgDepth)

  /** Byte offset of a member, as `uint32(member.Offset.Bytes())`: bits divided by eight. */
  function ByteOffset(m: Member): U32 {
    m.bitOffset / 8
  }

  /** Failures of the type-graph code. */
  datatype BtfError =
    | MemberNotFound(member: string)
    | NotAStruct(ty: TypeId)
    | NotAPointer(ty: TypeId)
    | IndexOutOfRange(index: nat)
    | PathTooDeep(path: string, max: nat)
    | HookNotFound(hook: string)
    | ArgIndexOutOfRange(argIndex: nat)
}
