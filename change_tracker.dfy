/**
 * The change records of `mmoserv/src/change_tracker.rs`: what happened
 * (an added, removed or changed component) to which (entity, component
 * type) pair.
 */
module ChangeTrackers {
  import opened Fmt
  import opened EntityIds
  import opened Components

  datatype ChangeType = Add(added: Component) | Remove | Change(changed: Component)

  datatype ChangeTracker = ChangeTracker(changeType: ChangeType, key: (EntityId, ComponentTypeId))

  /**
   * A record is consistent when the component it carries, if any, has the
   * type named by the type part of its key.
   */
  predicate KeyConsistent(c: ChangeTracker)
  {
    match c.changeType
    case Add(comp) => comp.typeId == c.key.1
    case Remove => true
    case Change(comp) => comp.typeId == c.key.1
  }

  /** `new_add(e, v)`: the key is `e` with the type id of `v`'s type. */
  function NewAdd(nm: Naming, e: EntityId, v: ComponentValue): (c: ChangeTracker)
    ensures GetEntityIdOf(c) == e && GetComponentType(c) == GetTypeId(nm, KindOf(v))
    ensures c.changeType.Add? && c.changeType.added.data == v
    ensures KeyConsistent(c)
  {
    ChangeTracker(Add(NewComponent(nm, v)), (e, GetTypeId(nm, KindOf(v))))
  }

  /** `new_remove(e, t)`: the key is exactly `(e, t)` and no component is carried. */
  function NewRemove(e: EntityId, t: ComponentTypeId): (c: ChangeTracker)
    ensures GetKey(c) == (e, t) && GetChangeType(c) == Remove
    ensures KeyConsistent(c)
  {
    ChangeTracker(Remove, (e, t))
  }

  /** `new_change(e, v)`: as `new_add`, carrying the value as a change. */
  function NewChange(nm: Naming, e: EntityId, v: ComponentValue): (c: ChangeTracker)
    ensures GetEntityIdOf(c) == e && GetComponentType(c) == GetTypeId(nm, KindOf(v))
    ensures c.changeType.Change? && c.changeType.changed.data == v
    ensures KeyConsistent(c)
  {
    ChangeTracker(Change(NewComponent(nm, v)), (e, GetTypeId(nm, KindOf(v))))
  }

  function GetEntityIdOf(c: ChangeTracker): EntityId
  {
    c.key.0
  }

  function GetComponentType(c: ChangeTracker): ComponentTypeId
  {
    c.key.1
  }

  function GetChangeType(c: ChangeTracker): ChangeType
  {
    c.changeType
  }

  function GetKey(c: ChangeTracker): (EntityId, ComponentTypeId)
  {
    c.key
  }

  /** The key is made of the two accessor results and nothing else. */
  lemma KeyOfAccessors(c: ChangeTracker)
    ensures GetKey(c) == (GetEntityIdOf(c), GetComponentType(c))
  {
  }

  /**
   * An add and a change of the same value for the same entity share a key,
   * so a consumer keyed by it sees them as the same instance.
   */
  lemma AddAndChangeShareKey(nm: Naming, e: EntityId, v: ComponentValue)
    ensures GetKey(NewAdd(nm, e, v)) == GetKey(NewChange(nm, e, v))
    ensures GetKey(NewAdd(nm, e, v)) == GetKey(NewRemove(e, GetTypeId(nm, KindOf(v))))
  {
  }

  /** The type part of the key of an add or change is the carried component's own type id. */
  lemma CarriedComponentMatchesKey(nm: Naming, e: EntityId, v: ComponentValue)
    ensures GetComponentType(NewAdd(nm, e, v)) == ComponentTypeIdOf(NewAdd(nm, e, v).changeType.added)
    ensures GetComponentType(NewChange(nm, e, v)) == ComponentTypeIdOf(NewChange(nm, e, v).changeType.changed)
  {
  }
}
