/**
 * Memory sizes of the types a Sierra program declares (type_sizes.rs).  The
 * declarations are visited in program order and each size may use the sizes
 * of types declared before it.  Sizes are unbounded integers here.
 */
module TypeSizes {
  import opened Wrappers

  type ConcreteTypeId = nat

  datatype StarkNetType = System | StorageBaseAddress | StorageAddress | ContractAddress | ClassHash | Secp256Point

  /** What the registry knows about a declared type, as far as its size is concerned. */
  datatype CoreType =
    | Felt252 | GasBuiltin | Bitwise | BuiltinCosts | EcOp | Nullable
    | Uint8 | Uint16 | Uint32 | Uint64 | Uint128 | RangeCheck | Box
    | StarkNet(starkNet: StarkNetType)
    | Pedersen | Poseidon | Felt252Dict | Felt252DictEntry | SegmentArena
    | Array | Span | EcPoint | SquashedFelt252Dict
    | NonZero(wrapped: ConcreteTypeId) | Snapshot(wrapped: ConcreteTypeId) | Uninitialized(wrapped: ConcreteTypeId)
    | EcState | Uint128MulGuarantee
    | Enum(variants: seq<ConcreteTypeId>)
    | Struct(members: seq<ConcreteTypeId>)
  {
    /** Types that occupy a single memory cell. */
    predicate IsSingleCell()
    {
      || Felt252? || GasBuiltin? || Bitwise? || BuiltinCosts? || EcOp? || Nullable?
      || Uint8? || Uint16? || Uint32? || Uint64? || Uint128? || RangeCheck? || Box?
      || StarkNet? || Pedersen? || Poseidon? || Felt252Dict? || Felt252DictEntry? || SegmentArena?
    }

    /** Types that occupy two memory cells. */
    predicate IsDoubleCell()
    {
      Array? || Span? || EcPoint? || SquashedFelt252Dict?
    }

    /** Types whose size is that of the type they wrap. */
    predicate IsWrapper()
    {
      NonZero? || Snapshot? || Uninitialized?
    }
  }

  /** The sizes of `ids`, in order; every one of them must already be sized. */
  function SizesOf(sizes: map<ConcreteTypeId, int>, ids: seq<ConcreteTypeId>): (r: seq<int>)
    requires forall id :: id in ids ==> id in sizes
    ensures |r| == |ids| && forall k :: 0 <= k < |ids| ==> r[k] == sizes[ids[k]]
  {
    seq(|ids|, k requires 0 <= k < |ids| => sizes[ids[k]])
  }

  /** The largest of a non-empty sequence. */
  function Max(xs: seq<int>): (r: int)
    requires xs != []
    ensures r in xs && forall x :: x in xs ==> x <= r
  {
    if |xs| == 1 then xs[0]
    else
      var rest := Max(xs[1..]);
      assert forall x :: x in xs ==> x == xs[0] || x in xs[1..];
      if xs[0] >= rest then xs[0] else rest
  }

  function Sum(xs: seq<int>): (r: int)
    ensures (forall i :: 0 <= i < |xs| ==> xs[i] >= 0) ==> r >= 0 && forall i :: 0 <= i < |xs| ==> xs[i] <= r
  {
    if xs == [] then 0
    else
      var rest := Sum(xs[1..]);
      assert forall i :: 0 < i < |xs| ==> xs[i] == xs[1..][i - 1];
      xs[0] + rest
  }

  /**
   * The outcome of sizing one type: a size, no size because the wrapped type
   * is not sized yet, or a panic because a variant or member is not sized.
   */
  datatype SizeOutcome = Sized(size: int) | Unsized | Panics

  /** The size of a type of kind `ty`, given the sizes computed so far. */
  function SizeOf(ty: CoreType, sizes: map<ConcreteTypeId, int>): (r: SizeOutcome)
    ensures ty.IsSingleCell() ==> r == Sized(1)
    ensures ty.IsDoubleCell() ==> r == Sized(2)
    ensures ty.EcState? ==> r == Sized(3)
    ensures ty.Uint128MulGuarantee? ==> r == Sized(4)
    ensures ty.IsWrapper() ==> r == if ty.wrapped in sizes then Sized(sizes[ty.wrapped]) else Unsized
    ensures r.Panics? <==>
      || (ty.Enum? && exists v :: v in ty.variants && v !in sizes)
      || (ty.Struct? && exists m :: m in ty.members && m !in sizes)
  {
    match ty
    case Felt252 | GasBuiltin | Bitwise | BuiltinCosts | EcOp | Nullable
       | Uint8 | Uint16 | Uint32 | Uint64 | Uint128 | RangeCheck | Box
       | StarkNet(_) | Pedersen | Poseidon | Felt252Dict | Felt252DictEntry | SegmentArena => Sized(1)
    case Array | Span | EcPoint | SquashedFelt252Dict => Sized(2)
    case NonZero(w) => if w in sizes then Sized(sizes[w]) else Unsized
    case Snapshot(w) => if w in sizes then Sized(sizes[w]) else Unsized
    case Uninitialized(w) => if w in sizes then Sized(sizes[w]) else Unsized
    case EcState => Sized(3)
    case Uint128MulGuarantee => Sized(4)
    case Enum(variants) =>
      if exists v :: v in variants && v !in sizes then Panics
      else
        var xs := SizesOf(sizes, variants);
        Sized(1 + if xs == [] then 0 else Max(xs))
    case Struct(members) =>
      if exists m :: m in members && m !in sizes then Panics
      else Sized(Sum(SizesOf(sizes, members)))
  }

  /**
   * An enum is one cell larger than its largest variant, and a single cell
   * when it has none.
   */
  lemma EnumSize(variants: seq<ConcreteTypeId>, sizes: map<ConcreteTypeId, int>)
    requires forall v :: v in variants ==> v in sizes
    ensures var r := SizeOf(Enum(variants), sizes);
      && r.Sized? && (forall v :: v in variants ==> sizes[v] < r.size)
      && (variants == [] ==> r.size == 1)
      && (variants != [] ==> exists v :: v in variants && r.size == 1 + sizes[v])
  {
    var xs := SizesOf(sizes, variants);
    forall v | v in variants ensures sizes[v] in xs {
      var k :| 0 <= k < |variants| && variants[k] == v;
      assert xs[k] == sizes[v];
    }
    if xs != [] {
      var k :| 0 <= k < |xs| && xs[k] == Max(xs);
      assert variants[k] in variants;
    }
  }

  /**
   * A struct is the sum of its members; when no size is negative, it is at
   * least as large as each member.
   */
  lemma StructSize(members: seq<ConcreteTypeId>, sizes: map<ConcreteTypeId, int>)
    requires forall m :: m in members ==> m in sizes
    ensures var r := SizeOf(Struct(members), sizes);
      && r.Sized? && r.size == Sum(SizesOf(sizes, members))
      && (members == [] ==> r.size == 0)
      && ((forall m :: m in sizes ==> sizes[m] >= 0) ==> forall m :: m in members ==> sizes[m] <= r.size)
  {
    var xs := SizesOf(sizes, members);
    if forall m :: m in sizes ==> sizes[m] >= 0 {
      assert forall k :: 0 <= k < |xs| ==> xs[k] >= 0 by {
        forall k | 0 <= k < |xs| ensures xs[k] >= 0 {
          assert members[k] in sizes;
        }
      }
      forall m | m in members ensures sizes[m] <= Sum(xs) {
        var k :| 0 <= k < |members| && members[k] == m;
        assert xs[k] == sizes[m];
      }
    }
  }

  /** The state of the computation after a prefix of the declarations. */
  datatype Run = Done(sizes: map<ConcreteTypeId, int>) | Stopped | Panicked

  /** Sizes the declaration `id`, given the sizes of the declarations before it. */
  function Step(sizes: map<ConcreteTypeId, int>, id: ConcreteTypeId, registry: map<ConcreteTypeId, CoreType>): Run
  {
    if id !in registry then Stopped
    else match SizeOf(registry[id], sizes)
      case Sized(n) => Done(sizes[id := n])
      case Unsized => Stopped
      case Panics => Panicked
  }

  /** The computation over `decls`, one declaration at a time, stopping at the first failure. */
  function RunOver(decls: seq<ConcreteTypeId>, registry: map<ConcreteTypeId, CoreType>): Run
    decreases |decls|
  {
    if decls == [] then Done(map[])
    else
      var prefix := RunOver(decls[..|decls| - 1], registry);
      if !prefix.Done? then prefix else Step(prefix.sizes, decls[|decls| - 1], registry)
  }

  /** Once a prefix has failed, the whole computation ends the same way. */
  lemma {:induction false} FailureIsFinal(decls: seq<ConcreteTypeId>, registry: map<ConcreteTypeId, CoreType>, i: nat)
    requires i <= |decls| && !RunOver(decls[..i], registry).Done?
    ensures RunOver(decls, registry) == RunOver(decls[..i], registry)
    decreases |decls| - i
  {
    if i < |decls| {
      var init := decls[..|decls| - 1];
      assert init[..i] == decls[..i];
      FailureIsFinal(init, registry, i);
    } else {
      assert decls[..i] == decls;
    }
  }

  /**
   * A successful computation sized every prefix, maps exactly the declared
   * ids, and found each of them in the registry.
   */
  lemma {:induction false} DoneCoversDeclarations(decls: seq<ConcreteTypeId>, registry: map<ConcreteTypeId, CoreType>)
    requires RunOver(decls, registry).Done?
    ensures forall id :: id in RunOver(decls, registry).sizes <==> id in decls
    ensures forall id :: id in decls ==> id in registry
    decreases |decls|
  {
    if decls != [] {
      var init := decls[..|decls| - 1];
      DoneCoversDeclarations(init, registry);
      assert forall id :: id in decls <==> id in init || id == decls[|decls| - 1];
    }
  }

  /** A declaration missing from the registry makes the whole result absent. */
  lemma MissingEntryFails(decls: seq<ConcreteTypeId>, registry: map<ConcreteTypeId, CoreType>, i: nat)
    requires i < |decls| && decls[i] !in registry
    ensures !RunOver(decls, registry).Done?
  {
    if RunOver(decls, registry).Done? {
      DoneCoversDeclarations(decls, registry);
    }
  }

  predicate Distinct(ids: seq<ConcreteTypeId>)
  {
    forall i, j :: 0 <= i < j < |ids| ==> ids[i] != ids[j]
  }

  /** Extending the known sizes does not change the size of a type that could already be sized. */
  lemma SizeOfStable(ty: CoreType, small: map<ConcreteTypeId, int>, large: map<ConcreteTypeId, int>)
    requires SizeOf(ty, small).Sized?
    requires forall id :: id in small ==> id in large && large[id] == small[id]
    ensures SizeOf(ty, large) == SizeOf(ty, small)
  {
    match ty
    case Enum(variants) =>
      assert SizesOf(small, variants) == SizesOf(large, variants);
    case Struct(members) =>
      assert SizesOf(small, members) == SizesOf(large, members);
    case _ =>
  }

  /** With distinct ids, each prefix's sizes survive unchanged into the final result. */
  lemma {:induction false} PrefixSizesKept(decls: seq<ConcreteTypeId>, registry: map<ConcreteTypeId, CoreType>, i: nat)
    requires Distinct(decls) && RunOver(decls, registry).Done? && i <= |decls|
    ensures RunOver(decls[..i], registry).Done?
    ensures var prefix := RunOver(decls[..i], registry).sizes; var final := RunOver(decls, registry).sizes;
      forall id :: id in prefix ==> id in final && final[id] == prefix[id]
    decreases |decls| - i
  {
    if i == |decls| {
      assert decls[..i] == decls;
    } else {
      var init := decls[..|decls| - 1];
      assert init[..i] == decls[..i];
      assert RunOver(init, registry).Done?;
      PrefixSizesKept(init, registry, i);
      DoneCoversDeclarations(init, registry);
      assert decls[|decls| - 1] !in init;
    }
  }

  /**
   * The result is consistent: with distinct ids, every declared type's size
   * is the size rule of its kind applied to the result itself.
   */
  lemma SizesAreConsistent(decls: seq<ConcreteTypeId>, registry: map<ConcreteTypeId, CoreType>, i: nat)
    requires Distinct(decls) && RunOver(decls, registry).Done? && i < |decls|
    ensures decls[i] in registry && decls[i] in RunOver(decls, registry).sizes
    ensures var sizes := RunOver(decls, registry).sizes;
      SizeOf(registry[decls[i]], sizes) == Sized(sizes[decls[i]])
  {
    DoneCoversDeclarations(decls, registry);
    PrefixSizesKept(decls, registry, i);
    PrefixSizesKept(decls, registry, i + 1);
    var prefix := RunOver(decls[..i], registry).sizes;
    assert decls[..i + 1][..i] == decls[..i];
    SizeOfStable(registry[decls[i]], prefix, RunOver(decls, registry).sizes);
  }

  /**
   * Returns the size of every declared type, or `None` when a declaration
   * is missing from the registry or wraps a type that is not sized yet.  An
   * enum variant or struct member that is not sized yet is a panic (the
   * size map is indexed directly), hence the precondition.
   */
  method GetTypeSizeMap(decls: seq<ConcreteTypeId>, registry: map<ConcreteTypeId, CoreType>)
    returns (r: Option<map<ConcreteTypeId, int>>)
    requires !RunOver(decls, registry).Panicked?
    ensures r.Some? <==> RunOver(decls, registry).Done?
    ensures r.Some? ==> r.value == RunOver(decls, registry).sizes
  {
    var typeSizes: map<ConcreteTypeId, int> := map[];
    for i := 0 to |decls|
      invariant RunOver(decls[..i], registry) == Done(typeSizes)
    {
      assert decls[..i + 1][..i] == decls[..i];
      assert RunOver(decls[..i + 1], registry) == Step(typeSizes, decls[i], registry);
      var id := decls[i];
      if id !in registry {
        FailureIsFinal(decls, registry, i + 1);
        return None;
      }
      match SizeOf(registry[id], typeSizes) {
        case Sized(size) =>
          typeSizes := typeSizes[id := size];
        case Unsized =>
          FailureIsFinal(decls, registry, i + 1);
          return None;
        case Panics =>
          FailureIsFinal(decls, registry, i + 1);
          assert false;
      }
    }
    assert decls[..|decls|] == decls;
    r := Some(typeSizes);
  }

  /** A registry with a felt252, an empty struct, an enum over the two and a non-zero wrapper of the enum. */
  function SmallRegistry(): map<ConcreteTypeId, CoreType>
  {
    map[0 := Felt252, 1 := Struct([]), 2 := Enum([0, 1]), 3 := NonZero(2)]
  }

  /** The first two declarations of the small program. */
  lemma SmallProgramScalars()
    ensures RunOver([0, 1], SmallRegistry()) == Done(map[0 := 1, 1 := 0])
  {
    assert [0][..0] == [] && [0, 1][..1] == [0];
    assert SizesOf(map[0 := 1], []) == [];
  }

  /** The enum of the small program is one cell larger than its felt252 variant. */
  lemma SmallProgramEnum()
    ensures SizeOf(Enum([0, 1]), map[0 := 1, 1 := 0]) == Sized(2)
  {
    assert SizesOf(map[0 := 1, 1 := 0], [0, 1]) == [1, 0];
    assert [1, 0][1..] == [0];
  }

  /** The first three declarations of the small program, in dependency order. */
  lemma SmallProgramPrefix()
    ensures RunOver([0, 1, 2], SmallRegistry()) == Done(map[0 := 1, 1 := 0, 2 := 2])
  {
    SmallProgramScalars();
    SmallProgramEnum();
    assert [0, 1, 2][..2] == [0, 1];
  }

  /** Declared in dependency order, every type of the small registry is sized. */
  method SmallProgramInOrder() returns (r: Option<map<ConcreteTypeId, int>>)
    ensures r == Some(map[0 := 1, 1 := 0, 2 := 2, 3 := 2])
  {
    var registry := SmallRegistry();
    SmallProgramPrefix();
    assert [0, 1, 2, 3][..3] == [0, 1, 2];
    r := GetTypeSizeMap([0, 1, 2, 3], registry);
  }

  /** A wrapper declared before the type it wraps leaves the whole program without sizes. */
  method SmallProgramWrapperFirst() returns (r: Option<map<ConcreteTypeId, int>>)
    ensures r == None
  {
    var registry := SmallRegistry();
    SmallProgramScalars();
    assert [0, 1, 3][..2] == [0, 1];
    assert RunOver([0, 1, 3], registry) == Stopped;
    assert [0, 1, 3, 2][..3] == [0, 1, 3];
    FailureIsFinal([0, 1, 3, 2], registry, 3);
    r := GetTypeSizeMap([0, 1, 3, 2], registry);
  }
}
