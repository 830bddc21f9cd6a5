/**
 * Component identity and the type-erased component store of
 * `mmolib/src/component.rs`: type ids derived by hashing a type's name,
 * instance ids, the `Component` container, and the copy-on-write
 * `ComponentRef`.
 */
module Components {
  import opened Wrappers
  import opened Fmt
  import opened EntityIds

  datatype ComponentTypeId = ComponentTypeId(number: U64)

  /** The (entity, component type) pair that keys caches and records. */
  datatype ComponentInstanceId = ComponentInstanceId(entity: EntityId, componentType: ComponentTypeId)

  function GetNumber(t: ComponentTypeId): U64
  {
    t.number
  }

  function TypeIdWithNumber(n: U64): (t: ComponentTypeId)
    ensures GetNumber(t) == n
  {
    ComponentTypeId(n)
  }

  function GetEntityId(id: ComponentInstanceId): EntityId
  {
    id.entity
  }

  function GetComponentTypeId(id: ComponentInstanceId): ComponentTypeId
  {
    id.componentType
  }

  function NewExplicit(e: EntityId, t: ComponentTypeId): (id: ComponentInstanceId)
    ensures GetEntityId(id) == e && GetComponentTypeId(id) == t
  {
    ComponentInstanceId(e, t)
  }

  /** `type<{:X}>`. */
  function TypeIdDisplay(t: ComponentTypeId): string
  {
    "type<" + UpperHex(t.number) + ">"
  }

  lemma TypeIdDisplayInjective(a: ComponentTypeId, b: ComponentTypeId)
    requires TypeIdDisplay(a) == TypeIdDisplay(b)
    ensures a == b
  {
    var s := TypeIdDisplay(a);
    assert s[5..|s| - 1] == UpperHex(a.number);
    assert TypeIdDisplay(b)[5..|s| - 1] == UpperHex(b.number);
    RadixInjective(a.number, b.number, 16);
  }

  // ---------------------------------------------------------------------
  // The closed universe of component types standing in for `dyn Any`.

  type I32 = x: int | -0x8000_0000 <= x < 0x8000_0000

  /**
   * The concrete Rust type of a component (what `downcast_ref` compares).
   * `PositionKind` is `mmolib::position::Position`; `OtherKind(n)` stands
   * for any further type implementing `ComponentType`.
   */
  datatype ComponentKind = PositionKind | OtherKind(n: nat)

  /** A value of some component type: a type tag plus its payload. */
  datatype ComponentValue = Position(x: I32, y: I32) | Other(n: nat, fields: seq<int>)

  function KindOf(v: ComponentValue): ComponentKind
  {
    match v
    case Position(_, _) => PositionKind
    case Other(n, _) => OtherKind(n)
  }

  /**
   * `std::any::type_name` and `hashing::string_hash`, neither of which is
   * part of this model: they are taken as given functions.
   */
  datatype Naming = Naming(typeName: ComponentKind -> string, stringHash: string -> U64)

  /** `get_type_id::<T>()` (also `ComponentTypeId::new::<T>()`). */
  function GetTypeId(nm: Naming, k: ComponentKind): ComponentTypeId
  {
    ComponentTypeId(nm.stringHash(nm.typeName(k)))
  }

  /** `get_type_id_from_str(s)`. */
  function GetTypeIdFromStr(nm: Naming, s: string): ComponentTypeId
  {
    ComponentTypeId(nm.stringHash(s))
  }

  /** Both derivations hash the same string, so they agree. */
  lemma TypeIdAgreesWithName(nm: Naming, k: ComponentKind)
    ensures GetTypeId(nm, k) == GetTypeIdFromStr(nm, nm.typeName(k))
  {
  }

  /** `ComponentInstanceId::new::<T>(e)`. */
  function InstanceIdOf(nm: Naming, k: ComponentKind, e: EntityId): (id: ComponentInstanceId)
    ensures GetEntityId(id) == e && GetComponentTypeId(id) == GetTypeId(nm, k)
  {
    NewExplicit(e, GetTypeId(nm, k))
  }

  // ---------------------------------------------------------------------
  // The type-erased container.

  /**
   * `Component`: the type id captured at construction and the shared value.
   * The captured serialization closure is not modelled.
   */
  datatype Component = Component(typeId: ComponentTypeId, data: ComponentValue)

  /** `Component::new(v)`, where `T` is the type of `v`. */
  function NewComponent(nm: Naming, v: ComponentValue): Component
  {
    Component(GetTypeId(nm, KindOf(v)), v)
  }

  function ComponentTypeIdOf(c: Component): ComponentTypeId
  {
    c.typeId
  }

  /** `downcast_ref::<T>` on the stored value: the value iff its type is `k`. */
  function Downcast(c: Component, k: ComponentKind): Option<ComponentValue>
  {
    if KindOf(c.data) == k then Some(c.data) else None
  }

  /** A component built from `v` reports the type id of `v`'s type. */
  lemma NewComponentTypeId(nm: Naming, v: ComponentValue)
    ensures ComponentTypeIdOf(NewComponent(nm, v)) == GetTypeId(nm, KindOf(v))
  {
  }

  /** A component built from `v` downcasts to `v` at its own type and to nothing else. */
  lemma DowncastOfNew(nm: Naming, v: ComponentValue, k: ComponentKind)
    ensures Downcast(NewComponent(nm, v), k) == if k == KindOf(v) then Some(v) else None
  {
  }

  /**
   * `ComponentRef<T>`: the shared value (the `Arc`, immutable) and the
   * optional private copy that the first mutable access creates.
   */
  class ComponentRef {
    /** The `T` of `ComponentRef<T>`. */
    const kind: ComponentKind
    /** The shared `Arc<dyn Any>`; no operation of a reference changes it. */
    const data: ComponentValue
    var changedData: Option<ComponentValue>

    /** Every reference holds a `T`, so the unwraps after `downcast_ref` cannot fail. */
    ghost predicate Valid()
      reads this
    {
      KindOf(data) == kind && (changedData.Some? ==> KindOf(changedData.value) == kind)
    }

    /** The struct literal of `get_ref`: share the value, no private copy. */
    constructor (k: ComponentKind, shared: ComponentValue)
      requires KindOf(shared) == k
      ensures Valid() && kind == k && data == shared && changedData == None
    {
      kind := k;
      data := shared;
      changedData := None;
    }

    /** `clear_changed_data`: drop the private copy. */
    method ClearChangedData()
      requires Valid()
      modifies this
      ensures Valid() && changedData == None
    {
      changedData := None;
    }

    /** `deref`: reads the SHARED value, whether or not a private copy exists. */
    function Deref(): (r: ComponentValue)
      reads this
      requires Valid()
      ensures KindOf(r) == kind
      ensures r == data
    {
      data
    }

    /**
     * `deref_mut`: clone the shared value into the private slot on first use,
     * then hand out the private slot.
     */
    method DerefMut() returns (r: ComponentValue)
      requires Valid()
      modifies this
      ensures Valid() && KindOf(r) == kind
      ensures changedData == Some(r)
      ensures r == if old(changedData).Some? then old(changedData).value else data
    {
      if changedData.None? {
        changedData := Some(data);
      }
      r := changedData.value;
    }

    /** `*r = v` through `deref_mut`: the write lands in the private slot. */
    method Assign(v: ComponentValue)
      requires Valid() && KindOf(v) == kind
      modifies this
      ensures Valid() && changedData == Some(v)
    {
      var _ := DerefMut();
      changedData := Some(v);
    }

    /**
     * The read the copy-on-write design intends: the private copy when there
     * is one, else the shared value.
     */
    function ReadCurrent(): (r: ComponentValue)
      reads this
      requires Valid()
      ensures KindOf(r) == kind
      ensures changedData.Some? ==> r == changedData.value
      ensures changedData.None? ==> r == data
    {
      match changedData
      case Some(v) => v
      case None => data
    }
  }

  /**
   * `get_ref::<T>()`: a fresh reference sharing the stored value when its type
   * is `k`, None otherwise.
   */
  method GetRef(c: Component, k: ComponentKind) returns (r: Option<ComponentRef>)
    ensures r.Some? <==> KindOf(c.data) == k
    ensures r.Some? ==> fresh(r.value) && r.value.Valid() && r.value.kind == k
                        && r.value.data == c.data && r.value.changedData == None
  {
    match Downcast(c, k)
    case Some(v) =>
      var cr := new ComponentRef(k, v);
      r := Some(cr);
    case None =>
      r := None;
  }

  /**
   * Copy-on-write isolation: a write through one reference leaves what a
   * second reference to the same component reads untouched, by `deref` and
   * by the intended read alike.
   */
  method CopyOnWriteIsolation(c: Component, v: ComponentValue) returns (seenByOther: ComponentValue, currentOfOther: ComponentValue)
    requires KindOf(v) == KindOf(c.data)
    ensures seenByOther == c.data && currentOfOther == c.data
  {
    var r1 := GetRef(c, KindOf(c.data));
    var r2 := GetRef(c, KindOf(c.data));
    r2.value.Assign(v);
    seenByOther := r1.value.Deref();
    currentOfOther := r1.value.ReadCurrent();
  }

  /**
   * As written, `deref` never sees the reference's own write: after
   * `*r = v`, reading through the same reference still gives the shared value.
   */
  method DerefMissesOwnWrite(c: Component, v: ComponentValue) returns (seen: ComponentValue)
    requires KindOf(v) == KindOf(c.data)
    ensures seen == c.data
  {
    var r := GetRef(c, KindOf(c.data));
    r.value.Assign(v);
    seen := r.value.Deref();
  }

  /** The intended read sees the reference's own write. */
  method ReadCurrentSeesOwnWrite(c: Component, v: ComponentValue) returns (seen: ComponentValue)
    requires KindOf(v) == KindOf(c.data)
    ensures seen == v
  {
    var r := GetRef(c, KindOf(c.data));
    r.value.Assign(v);
    seen := r.value.ReadCurrent();
  }

  /**
   * After `clear_changed_data` the next `deref_mut` clones the shared value
   * again, discarding the earlier write.
   */
  method ClearDiscardsWrite(c: Component, v: ComponentValue) returns (recloned: ComponentValue)
    requires KindOf(v) == KindOf(c.data)
    ensures recloned == c.data
  {
    var r := GetRef(c, KindOf(c.data));
    r.value.Assign(v);
    r.value.ClearChangedData();
    recloned := r.value.DerefMut();
  }
}
