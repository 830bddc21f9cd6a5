/**
 * The query builder of `mmoserv/src/query.rs`: an append-only list of
 * entries, a structural hash folded over them, and an `execute` that does
 * not yet look anything up.
 */
module Queries {
  import opened Fmt
  import opened EntityIds
  import opened Components

  datatype QueryEntry = Union(unionType: ComponentTypeId) | OptionEntry(optionType: ComponentTypeId)

  const HASH_SEED: U64 := 1337

  // ---------------------------------------------------------------------
  // Bitwise XOR of u64 values, through their bits.

  /** The low `k` bits of `a`, least significant first. */
  function Bits(a: nat, k: nat): (s: seq<bool>)
    ensures |s| == k
  {
    if k == 0 then [] else [a % 2 == 1] + Bits(a / 2, k - 1)
  }

  /** The number a bit sequence spells, least significant bit first. */
  function FromBits(s: seq<bool>): nat
  {
    if |s| == 0 then 0 else (if s[0] then 1 else 0) + 2 * FromBits(s[1..])
  }

  /** Bitwise exclusive or of two equally long bit sequences. */
  function XorSeq(s: seq<bool>, t: seq<bool>): (r: seq<bool>)
    requires |s| == |t|
    ensures |r| == |s| && forall i :: 0 <= i < |r| ==> r[i] == (s[i] != t[i])
  {
    seq(|s|, i requires 0 <= i < |s| => s[i] != t[i])
  }

  /** `a ^ b` on the low `k` bits. */
  function XorBits(a: nat, b: nat, k: nat): nat
  {
    FromBits(XorSeq(Bits(a, k), Bits(b, k)))
  }

  lemma {:induction false} BitsOfFromBits(s: seq<bool>)
    ensures Bits(FromBits(s), |s|) == s
  {
    if |s| > 0 {
      var n := FromBits(s);
      var b := if s[0] then 1 else 0;
      assert n == b + 2 * FromBits(s[1..]);
      assert n % 2 == b && n / 2 == FromBits(s[1..]);
      BitsOfFromBits(s[1..]);
      assert Bits(n, |s|) == [n % 2 == 1] + Bits(n / 2, |s| - 1);
    }
  }

  lemma {:induction false} FromBitsOfBits(a: nat, k: nat)
    requires a < Pow2(k)
    ensures FromBits(Bits(a, k)) == a
  {
    if k > 0 {
      FromBitsOfBits(a / 2, k - 1);
      var s := Bits(a, k);
      assert s[1..] == Bits(a / 2, k - 1);
    }
  }

  lemma {:induction false} FromBitsBelow(s: seq<bool>)
    ensures FromBits(s) < Pow2(|s|)
  {
    if |s| > 0 {
      FromBitsBelow(s[1..]);
    }
  }

  lemma {:induction false} FromBitsOfZeros(s: seq<bool>)
    requires forall i :: 0 <= i < |s| ==> !s[i]
    ensures FromBits(s) == 0
  {
    if |s| > 0 {
      FromBitsOfZeros(s[1..]);
    }
  }

  lemma {:induction false} BitsOfZero(k: nat)
    ensures forall i :: 0 <= i < k ==> !Bits(0, k)[i]
  {
    if k > 0 {
      BitsOfZero(k - 1);
      assert Bits(0, k) == [false] + Bits(0, k - 1);
    }
  }

  lemma XorAssoc(a: nat, b: nat, c: nat, k: nat)
    ensures XorBits(XorBits(a, b, k), c, k) == XorBits(a, XorBits(b, c, k), k)
  {
    var sa, sb, sc := Bits(a, k), Bits(b, k), Bits(c, k);
    BitsOfFromBits(XorSeq(sa, sb));
    BitsOfFromBits(XorSeq(sb, sc));
    assert XorSeq(XorSeq(sa, sb), sc) == XorSeq(sa, XorSeq(sb, sc));
  }

  lemma XorComm(a: nat, b: nat, k: nat)
    ensures XorBits(a, b, k) == XorBits(b, a, k)
  {
    assert XorSeq(Bits(a, k), Bits(b, k)) == XorSeq(Bits(b, k), Bits(a, k));
  }

  lemma XorSelf(a: nat, k: nat)
    ensures XorBits(a, a, k) == 0
  {
    FromBitsOfZeros(XorSeq(Bits(a, k), Bits(a, k)));
  }

  lemma XorZero(a: nat, k: nat)
    requires a < Pow2(k)
    ensures XorBits(a, 0, k) == a
  {
    BitsOfZero(k);
    assert XorSeq(Bits(a, k), Bits(0, k)) == Bits(a, k);
    FromBitsOfBits(a, k);
  }

  lemma XorBelow(a: nat, b: nat, k: nat)
    ensures XorBits(a, b, k) < Pow2(k)
  {
    FromBitsBelow(XorSeq(Bits(a, k), Bits(b, k)));
  }

  lemma XorLowBit(a: nat, b: nat, k: nat)
    requires k > 0
    ensures XorBits(a, b, k) % 2 == (a % 2 + b % 2) % 2
  {
    var s := XorSeq(Bits(a, k), Bits(b, k));
    assert s[0] == ((a % 2 == 1) != (b % 2 == 1));
  }

  /** `a ^ b` on u64 values. */
  function Xor(a: nat, b: nat): nat
  {
    XorBits(a, b, 64)
  }

  /** The last two operands of a XOR chain can be swapped. */
  lemma XorSwap(a: nat, b: nat, c: nat)
    ensures Xor(Xor(a, b), c) == Xor(Xor(a, c), b)
  {
    XorAssoc(a, b, c, 64);
    XorComm(b, c, 64);
    XorAssoc(a, c, b, 64);
  }

  // ---------------------------------------------------------------------
  // The hash.

  /** What `Union(x)` XORs in: `x.get_number() + 1`, wrapping at 2^64 as a release build does. */
  function UnionTerm(x: ComponentTypeId): U64
  {
    (x.number + 1) % TWO_POW_64
  }

  /**
   * One step of `hash`. `+` binds tighter than `^`, so a union XORs in
   * `x + 1`; an option shifts left by `x`, whose amount a release build
   * takes modulo 64.
   */
  function Step(y: nat, e: QueryEntry): nat
  {
    match e
    case Union(x) => Xor(y, UnionTerm(x))
    case OptionEntry(x) => Shl64(y, x.number % 64)
  }

  /** `hash` as a left fold of `Step` from the seed over the entries in order. */
  function HashOf(es: seq<QueryEntry>): nat
    decreases |es|
  {
    if |es| == 0 then HASH_SEED else Step(HashOf(es[..|es| - 1]), es[|es| - 1])
  }

  /** Every step keeps the hash a u64. */
  lemma StepBelow(y: nat, e: QueryEntry)
    ensures Step(y, e) < TWO_POW_64
  {
    if e.Union? {
      Pow2Of64();
      XorBelow(y, UnionTerm(e.unionType), 64);
    }
  }

  /** The hash is a u64. */
  lemma {:induction false} HashBelow(es: seq<QueryEntry>)
    ensures HashOf(es) < TWO_POW_64
    decreases |es|
  {
    if |es| > 0 {
      HashBelow(es[..|es| - 1]);
      StepBelow(HashOf(es[..|es| - 1]), es[|es| - 1]);
    }
  }

  class Query {
    var entries: seq<QueryEntry>

    /** `Query::new`: no entries (the world handle is not modelled). */
    constructor ()
      ensures entries == []
    {
      entries := [];
    }

    /** `add_union::<T>()`: one union entry for `T`'s type id at the end. */
    method AddUnion(nm: Naming, k: ComponentKind)
      modifies this
      ensures entries == old(entries) + [Union(GetTypeId(nm, k))]
    {
      entries := entries + [Union(GetTypeId(nm, k))];
    }

    /** `add_option::<T>()`: one option entry for `T`'s type id at the end. */
    method AddOption(nm: Naming, k: ComponentKind)
      modifies this
      ensures entries == old(entries) + [OptionEntry(GetTypeId(nm, k))]
    {
      entries := entries + [OptionEntry(GetTypeId(nm, k))];
    }

    /** `hash`: the loop over the entries computes the fold. */
    method Hash() returns (y: U64)
      ensures y == HashOf(entries)
      ensures y < TWO_POW_64
    {
      y := HASH_SEED;
      var i := 0;
      while i < |entries|
        invariant 0 <= i <= |entries|
        invariant y == HashOf(entries[..i])
      {
        assert entries[..i + 1][..i] == entries[..i];
        StepBelow(y, entries[i]);
        y := Step(y, entries[i]);
        i := i + 1;
      }
      assert entries[..i] == entries;
    }

    /** `execute`: a result with no entities, whatever the entries are. */
    function Execute(): (r: QueryResult)
      reads this
      ensures IntoIter(r) == []
    {
      QueryResult([])
    }
  }

  /** An entity handle of a result (its world handle is not modelled). */
  datatype Entity = Entity(entityId: EntityId)

  datatype QueryResult = QueryResult(entities: seq<Entity>)

  /** `into_iter`: the entities in stored order. */
  function IntoIter(r: QueryResult): (s: seq<Entity>)
    ensures |s| == |r.entities| && forall i :: 0 <= i < |s| ==> s[i] == r.entities[i]
  {
    r.entities
  }

  // ---------------------------------------------------------------------
  // Laws of the hash.

  /** A fresh query hashes to the seed. */
  lemma HashOfEmpty()
    ensures HashOf([]) == 1337
  {
  }

  /** Appending an entry applies one more step to the old hash. */
  lemma HashOfSnoc(es: seq<QueryEntry>, e: QueryEntry)
    ensures HashOf(es + [e]) == Step(HashOf(es), e)
  {
    assert (es + [e])[..|es|] == es;
  }

  /** Appending two entries applies two more steps, in order. */
  lemma HashOfSnoc2(es: seq<QueryEntry>, e: QueryEntry, e': QueryEntry)
    ensures HashOf(es + [e, e']) == Step(Step(HashOf(es), e), e')
  {
    HashOfSnoc(es, e);
    HashOfSnoc(es + [e], e');
    assert es + [e] + [e'] == es + [e, e'];
  }

  predicate UnionsOnly(es: seq<QueryEntry>)
  {
    forall i :: 0 <= i < |es| ==> es[i].Union?
  }

  /** What an entry contributes to the XOR of the unions: options contribute nothing. */
  function UnionContribution(e: QueryEntry): nat
  {
    if e.Union? then UnionTerm(e.unionType) else 0
  }

  /** The XOR of `f` over the entries, for any per-entry contribution `f`. */
  function XorWith(f: QueryEntry -> nat, es: seq<QueryEntry>): nat
    decreases |es|
  {
    if |es| == 0 then 0 else Xor(XorWith(f, es[..|es| - 1]), f(es[|es| - 1]))
  }

  /** The XOR of the union terms of a query, an order-free quantity. */
  function XorOfUnions(es: seq<QueryEntry>): nat
  {
    XorWith(UnionContribution, es)
  }

  lemma XorWithUnfold(f: QueryEntry -> nat, es: seq<QueryEntry>)
    requires |es| > 0
    ensures XorWith(f, es) == Xor(XorWith(f, es[..|es| - 1]), f(es[|es| - 1]))
  {
  }

  /** A union-only query hashes to the seed XOR every union term. */
  lemma {:induction false} UnionHashIsXor(es: seq<QueryEntry>)
    requires UnionsOnly(es)
    ensures HashOf(es) == Xor(HASH_SEED, XorOfUnions(es))
    decreases |es|
  {
    if |es| == 0 {
      Pow2Of64();
      XorZero(HASH_SEED, 64);
    } else {
      var init := es[..|es| - 1];
      UnionHashIsXor(init);
      XorWithUnfold(UnionContribution, es);
      XorAssoc(HASH_SEED, XorOfUnions(init), UnionContribution(es[|es| - 1]), 64);
    }
  }

  /** Removing an entry other than the last commutes with dropping the last. */
  lemma RemoveBeforeLast(es: seq<QueryEntry>, i: nat)
    requires i < |es| - 1
    ensures var rest := es[..i] + es[i + 1..];
      |rest| == |es| - 1 && rest[|rest| - 1] == es[|es| - 1]
      && rest[..|rest| - 1] == es[..|es| - 1][..i] + es[..|es| - 1][i + 1..]
  {
    var rest := es[..i] + es[i + 1..];
    var init := es[..|es| - 1];
    assert init[..i] + init[i + 1..] == rest[..|rest| - 1];
  }

  /** Taking any one entry out of the XOR leaves the XOR of the rest. */
  lemma {:induction false} XorWithRemove(f: QueryEntry -> nat, es: seq<QueryEntry>, i: nat)
    requires i < |es|
    ensures XorWith(f, es) == Xor(XorWith(f, es[..i] + es[i + 1..]), f(es[i]))
    decreases |es|
  {
    if i < |es| - 1 {
      XorWithRemove(f, es[..|es| - 1], i);
      XorWithRemoveStep(f, es, i);
    } else {
      assert es[..i] + es[i + 1..] == es[..|es| - 1];
      XorWithUnfold(f, es);
    }
  }

  /** The step of `XorWithRemove`: from removing entry `i` of all but the last entry. */
  lemma XorWithRemoveStep(f: QueryEntry -> nat, es: seq<QueryEntry>, i: nat)
    requires i < |es| - 1
    requires var init := es[..|es| - 1];
      XorWith(f, init) == Xor(XorWith(f, init[..i] + init[i + 1..]), f(es[i]))
    ensures XorWith(f, es) == Xor(XorWith(f, es[..i] + es[i + 1..]), f(es[i]))
  {
    var rest := es[..i] + es[i + 1..];
    RemoveBeforeLast(es, i);
    XorWithUnfold(f, es);
    XorWithUnfold(f, rest);
    XorSwap(XorWith(f, rest[..|rest| - 1]), f(es[i]), f(es[|es| - 1]));
  }

  lemma MultisetRemove(es: seq<QueryEntry>, i: nat)
    requires i < |es|
    ensures multiset(es[..i] + es[i + 1..]) == multiset(es) - multiset{es[i]}
  {
    assert es == es[..i] + [es[i]] + es[i + 1..];
  }

  /** The XOR depends only on the multiset of entries. */
  lemma {:induction false} XorWithPermutation(f: QueryEntry -> nat, es: seq<QueryEntry>, fs: seq<QueryEntry>)
    requires multiset(es) == multiset(fs)
    ensures XorWith(f, es) == XorWith(f, fs)
    decreases |es|
  {
    if |es| > 0 {
      var last := es[|es| - 1];
      var init := es[..|es| - 1];
      assert last in multiset(es);
      assert last in multiset(fs);
      var i :| 0 <= i < |fs| && fs[i] == last;
      XorWithRemove(f, fs, i);
      var rest := fs[..i] + fs[i + 1..];
      MultisetRemove(fs, i);
      MultisetRemove(es, |es| - 1);
      assert es[..|es| - 1] + es[|es|..] == init;
      XorWithPermutation(f, init, rest);
      XorWithUnfold(f, es);
    } else {
      assert |fs| == |multiset(fs)| == |multiset(es)| == 0;
    }
  }

  /** For union-only queries the order of the entries does not change the hash. */
  lemma UnionHashOrderFree(es: seq<QueryEntry>, fs: seq<QueryEntry>)
    requires UnionsOnly(es) && multiset(es) == multiset(fs)
    ensures HashOf(es) == HashOf(fs)
  {
    assert forall i :: 0 <= i < |fs| ==> fs[i] in multiset(es);
    UnionHashIsXor(es);
    UnionHashIsXor(fs);
    XorWithPermutation(UnionContribution, es, fs);
  }

  /** Adding the same union twice in a row leaves the hash as it was. */
  lemma DoubleUnionCancels(es: seq<QueryEntry>, x: ComponentTypeId)
    ensures HashOf(es + [Union(x), Union(x)]) == HashOf(es)
  {
    HashOfSnoc2(es, Union(x), Union(x));
    XorAssoc(HashOf(es), UnionTerm(x), UnionTerm(x), 64);
    XorSelf(UnionTerm(x), 64);
    HashBelow(es);
    Pow2Of64();
    XorZero(HashOf(es), 64);
  }

  /** A union whose term wraps to 0 is a step that changes nothing. */
  lemma StepOfZeroUnion(y: nat, x: ComponentTypeId)
    requires y < TWO_POW_64 && UnionTerm(x) == 0
    ensures Step(y, Union(x)) == y
  {
    Pow2Of64();
    XorZero(y, 64);
  }

  /** An option whose type number is a multiple of 64 is a step that changes nothing. */
  lemma StepOfWrappedOption(y: nat, x: ComponentTypeId)
    requires y < TWO_POW_64 && x.number % 64 == 0
    ensures Step(y, OptionEntry(x)) == y
  {
    assert Step(y, OptionEntry(x)) == Shl64(y, 0);
    assert Pow2(0) == 1;
  }

  /** The largest type number wraps: its union XORs in 0 and leaves the hash unchanged. */
  lemma UnionOfMaxWraps(es: seq<QueryEntry>)
    ensures UnionTerm(ComponentTypeId(TWO_POW_64 - 1)) == 0
    ensures HashOf(es + [Union(ComponentTypeId(TWO_POW_64 - 1))]) == HashOf(es)
  {
    HashOfSnoc(es, Union(ComponentTypeId(TWO_POW_64 - 1)));
    HashBelow(es);
    StepOfZeroUnion(HashOf(es), ComponentTypeId(TWO_POW_64 - 1));
  }

  /** An option whose type number is a multiple of 64 shifts by 0 and leaves the hash unchanged. */
  lemma OptionShiftWraps(es: seq<QueryEntry>, x: ComponentTypeId)
    requires x.number % 64 == 0
    ensures HashOf(es + [OptionEntry(x)]) == HashOf(es)
  {
    HashOfSnoc(es, OptionEntry(x));
    HashBelow(es);
    StepOfWrappedOption(HashOf(es), x);
  }

  /** A shift by one or more bits leaves an even number. */
  lemma ShiftIsEven(y: nat, k: nat)
    requires k > 0
    ensures Shl64(y, k) % 2 == 0
  {
    var p := y * Pow2(k);
    assert p == 2 * (y * Pow2(k - 1));
    var q, m := p / TWO_POW_64, p % TWO_POW_64;
    assert p == q * TWO_POW_64 + m;
    assert m == 2 * (p / 2 - q * (TWO_POW_64 / 2));
  }

  /**
   * The two orders of a union of type 0 and an option of type 1, one step
   * at a time: the first ends even, the second odd.
   */
  lemma UnionOptionParity(y: nat)
    ensures Step(Step(y, Union(ComponentTypeId(0))), OptionEntry(ComponentTypeId(1))) % 2 == 0
    ensures Step(Step(y, OptionEntry(ComponentTypeId(1))), Union(ComponentTypeId(0))) % 2 == 1
  {
    assert UnionTerm(ComponentTypeId(0)) == 1;
    ShiftIsEven(Xor(y, 1), 1);
    ShiftIsEven(y, 1);
    XorLowBit(Shl64(y, 1), 1, 64);
  }

  /**
   * Once an option is involved the order matters: after any prefix, a union
   * of type 0 then an option of type 1 hashes to an even number, and the
   * same two entries the other way round to an odd one.
   */
  lemma OptionOrderMatters(es: seq<QueryEntry>)
    ensures HashOf(es + [Union(ComponentTypeId(0)), OptionEntry(ComponentTypeId(1))]) % 2 == 0
    ensures HashOf(es + [OptionEntry(ComponentTypeId(1)), Union(ComponentTypeId(0))]) % 2 == 1
  {
    var u, o := Union(ComponentTypeId(0)), OptionEntry(ComponentTypeId(1));
    HashOfSnoc2(es, u, o);
    HashOfSnoc2(es, o, u);
    UnionOptionParity(HashOf(es));
  }
}
