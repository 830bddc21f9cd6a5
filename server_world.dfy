/**
 * The world server of `mmoserv/src/server_world.rs` over an abstract
 * store: where each component and index lives in the key space, the
 * buffered write pipeline, immediate deletes, index intersection, and the
 * read-through component cache.
 */
module ServerWorlds {
  import opened Wrappers
  import opened Fmt
  import opened EntityIds
  import opened Components
  import opened RedisStore

  /** `ServerWorldError`; the wrapped library errors carry no detail here. */
  datatype WorldError = RedisError | SerdeError | ComponentChanged | ComponentNotFound

  // ---------------------------------------------------------------------
  // The connection string.

  /** `get_redis_connection_string`. */
  function ConnectionString(host: string, port: U16): (s: string)
    ensures "redis://" <= s && |s| > 8 && s[|s| - 1] == '/'
  {
    "redis://" + host + ":" + Dec(port) + "/"
  }

  /** Host and port can be read back: the port is what follows the last colon. */
  lemma ConnectionStringInjective(h: string, p: U16, h': string, p': U16)
    ensures ConnectionString(h, p) == ConnectionString(h', p') <==> h == h' && p == p'
  {
    if ConnectionString(h, p) == ConnectionString(h', p') {
      var s := ConnectionString(h, p);
      assert s[8..|s| - 1] == h + ":" + Dec(p);
      assert ConnectionString(h', p')[8..|s| - 1] == h' + ":" + Dec(p');
      RadixAvoids(p, 10, ':');
      RadixAvoids(p', 10, ':');
      SplitAtLast(h, Dec(p), h', Dec(p'), ':');
      RadixInjective(p, p', 10);
    }
  }

  // ---------------------------------------------------------------------
  // The world's fixed parameters.

  /**
   * `serde_json`'s `to_string` and `from_str::<T>`, neither of which is part
   * of this model. Decoding asks for a value of one component type.
   */
  datatype Codec = Codec(encode: ComponentValue -> Option<string>, decode: (ComponentKind, string) -> Option<ComponentValue>)

  /** `from_str::<T>`: Rust's typing guarantees the value has type `T`. */
  function Decode(codec: Codec, k: ComponentKind, s: string): (r: Option<ComponentValue>)
    ensures r.Some? ==> KindOf(r.value) == k
  {
    match codec.decode(k, s)
    case Some(v) => if KindOf(v) == k then Some(v) else None
    case None => None
  }

  /** The world's name, how type ids are derived, and how components are serialized. */
  datatype Env = Env(worldName: string, naming: Naming, codec: Codec)

  function TypeOf(env: Env, k: ComponentKind): ComponentTypeId
  {
    GetTypeId(env.naming, k)
  }

  // ---------------------------------------------------------------------
  // The key space.

  /** `"{w}:{e}:{t}"`: where one component's serialization lives. */
  function DataKey(w: string, e: EntityId, t: ComponentTypeId): (key: string)
    ensures w + ":" <= key
  {
    w + ":" + Dec(e.number) + ":" + Dec(t.number)
  }

  /** `"{w}:{n}"`: the shape shared by both kinds of index key. */
  function IndexKey(w: string, n: nat): (key: string)
    ensures w + ":" <= key
  {
    w + ":" + Dec(n)
  }

  /** `"{w}:{e}"`: the set of type numbers the entity has. */
  function EntityIndexKey(w: string, e: EntityId): (key: string)
    ensures w + ":" <= key
  {
    IndexKey(w, e.number)
  }

  /** `"{w}:{t}"`: the set of entity numbers having the type. */
  function TypeIndexKey(w: string, t: ComponentTypeId): (key: string)
    ensures w + ":" <= key
  {
    IndexKey(w, t.number)
  }

  lemma StripWorld(w: string, x: string)
    ensures (w + ":" + x)[|w| + 1..] == x
  {
  }

  /** A data key is never an index key of the same world. */
  lemma DataKeyNotIndexKey(w: string, e: EntityId, t: ComponentTypeId, n: nat)
    ensures DataKey(w, e, t) != IndexKey(w, n)
  {
    var x := Dec(e.number) + ":" + Dec(t.number);
    assert DataKey(w, e, t) == w + ":" + x;
    StripWorld(w, x);
    StripWorld(w, Dec(n));
    RadixAvoids(n, 10, ':');
    assert x[|Dec(e.number)|] == ':';
  }

  /** Within one world the data key names exactly one (entity, type) pair. */
  lemma DataKeyInjective(w: string, e: EntityId, t: ComponentTypeId, e': EntityId, t': ComponentTypeId)
    ensures DataKey(w, e, t) == DataKey(w, e', t') <==> e == e' && t == t'
  {
    if DataKey(w, e, t) == DataKey(w, e', t') {
      var x, x' := Dec(e.number) + ":" + Dec(t.number), Dec(e'.number) + ":" + Dec(t'.number);
      assert DataKey(w, e, t) == w + ":" + x && DataKey(w, e', t') == w + ":" + x';
      StripWorld(w, x);
      StripWorld(w, x');
      RadixAvoids(e.number, 10, ':');
      RadixAvoids(e'.number, 10, ':');
      SplitAtFirst(Dec(e.number), Dec(t.number), Dec(e'.number), Dec(t'.number), ':');
      RadixInjective(e.number, e'.number, 10);
      RadixInjective(t.number, t'.number, 10);
    }
  }

  /** Index keys of one world coincide exactly when their numbers do. */
  lemma IndexKeyInjective(w: string, n: nat, m: nat)
    ensures IndexKey(w, n) == IndexKey(w, m) <==> n == m
  {
    if IndexKey(w, n) == IndexKey(w, m) {
      StripWorld(w, Dec(n));
      StripWorld(w, Dec(m));
      RadixInjective(n, m, 10);
    }
  }

  /**
   * The entity index of an entity and the type index of a type are the same
   * key whenever the entity's number equals the type's number.
   */
  lemma EntityAndTypeIndexCoincide(w: string, e: EntityId, t: ComponentTypeId)
    ensures EntityIndexKey(w, e) == TypeIndexKey(w, t) <==> e.number == t.number
  {
    IndexKeyInjective(w, e.number, t.number);
  }

  /** Keys of worlds whose names have no colon determine their world. */
  lemma KeyDeterminesWorld(w: string, x: string, w': string, x': string)
    requires ':' !in w && ':' !in w'
    requires w + ":" + x == w' + ":" + x'
    ensures w == w' && x == x'
  {
    SplitAtFirst(w, x, w', x', ':');
  }

  // ---------------------------------------------------------------------
  // Writing.

  /**
   * The three commands `write_component` buffers for `v` on entity `e`, or
   * None when serialization fails (and nothing is buffered).
   */
  function WriteCmds(env: Env, e: EntityId, v: ComponentValue): (r: Option<seq<Cmd>>)
    ensures r.None? <==> env.codec.encode(v).None?
    ensures r.Some? ==> var t := TypeOf(env, KindOf(v));
      r.value == [Set(DataKey(env.worldName, e, t), env.codec.encode(v).value),
                  SAdd(EntityIndexKey(env.worldName, e), Dec(t.number)),
                  SAdd(TypeIndexKey(env.worldName, t), Dec(e.number))]
  {
    match env.codec.encode(v)
    case None => None
    case Some(s) =>
      var t := TypeOf(env, KindOf(v));
      Some([Set(DataKey(env.worldName, e, t), s),
            SAdd(EntityIndexKey(env.worldName, e), Dec(t.number)),
            SAdd(TypeIndexKey(env.worldName, t), Dec(e.number))])
  }

  // ---------------------------------------------------------------------
  // Reading one component.

  /**
   * `get_component::<T>`: a missing key or one holding a set is a store
   * error; a string that does not decode as a `T` is a serialization error.
   */
  function GetComponentFrom(env: Env, st: Store, k: ComponentKind, e: EntityId): (r: Result<ComponentValue, WorldError>)
    ensures r.Ok? ==> KindOf(r.value) == k
    ensures r == Err(RedisError) <==> !HoldsString(st, DataKey(env.worldName, e, TypeOf(env, k)))
    ensures r.Ok? ==> Decode(env.codec, k, st[DataKey(env.worldName, e, TypeOf(env, k))].s) == Some(r.value)
    ensures var dk := DataKey(env.worldName, e, TypeOf(env, k));
            HoldsString(st, dk) ==> (r.Ok? <==> Decode(env.codec, k, st[dk].s).Some?)
    ensures r.Err? ==> r.error == RedisError || r.error == SerdeError
  {
    match Get(st, DataKey(env.worldName, e, TypeOf(env, k)))
    case None => Err(RedisError)
    case Some(s) =>
      match Decode(env.codec, k, s)
      case None => Err(SerdeError)
      case Some(v) => Ok(v)
  }

  /**
   * After a pipeline ending in the commands that write `v`, reading the
   * component back gives `v`, provided the codec reproduces `v`.
   */
  lemma WriteThenRead(env: Env, st: Store, p: seq<Cmd>, e: EntityId, v: ComponentValue)
    requires env.codec.encode(v).Some?
    requires Decode(env.codec, KindOf(v), env.codec.encode(v).value) == Some(v)
    ensures GetComponentFrom(env, RunPipeline(st, p + WriteCmds(env, e, v).value).0, KindOf(v), e) == Ok(v)
  {
    var w, t := env.worldName, TypeOf(env, KindOf(v));
    var cmds := WriteCmds(env, e, v).value;
    var dk := DataKey(w, e, t);
    RunPipelineAppend(st, p, cmds);
    var st1 := RunPipeline(st, p).0;
    DataKeyNotIndexKey(w, e, t, e.number);
    DataKeyNotIndexKey(w, e, t, t.number);
    SetSurvivesTwoAdds(st1, dk, env.codec.encode(v).value, EntityIndexKey(w, e), Dec(t.number),
                       TypeIndexKey(w, t), Dec(e.number));
  }

  /** Of two buffered writes of the same component, the later one is what is read. */
  lemma LastWriteWins(env: Env, st: Store, e: EntityId, v1: ComponentValue, v2: ComponentValue)
    requires KindOf(v1) == KindOf(v2)
    requires env.codec.encode(v1).Some? && env.codec.encode(v2).Some?
    requires Decode(env.codec, KindOf(v2), env.codec.encode(v2).value) == Some(v2)
    ensures var p := WriteCmds(env, e, v1).value + WriteCmds(env, e, v2).value;
      GetComponentFrom(env, RunPipeline(st, p).0, KindOf(v1), e) == Ok(v2)
  {
    WriteThenRead(env, st, WriteCmds(env, e, v1).value, e, v2);
  }

  // ---------------------------------------------------------------------
  // Deleting.

  /**
   * `delete_component::<T>`: `DEL` the data key, then `SREM` the type from
   * the entity index, then `SREM` the entity from the type index, each sent
   * at once, stopping at the first failure (which keeps the earlier effects).
   */
  function DeleteSteps(env: Env, st: Store, k: ComponentKind, e: EntityId): (r: (Store, Result<(), WorldError>))
    ensures DataKey(env.worldName, e, TypeOf(env, k)) !in r.0
    ensures r.1.Ok? <==> !HoldsString(st, EntityIndexKey(env.worldName, e))
                         && !HoldsString(st, TypeIndexKey(env.worldName, TypeOf(env, k)))
    ensures r.1.Ok? ==>
      && Dec(TypeOf(env, k).number) !in MembersAt(r.0, EntityIndexKey(env.worldName, e))
      && Dec(e.number) !in MembersAt(r.0, TypeIndexKey(env.worldName, TypeOf(env, k)))
    ensures forall key :: key in st && key != DataKey(env.worldName, e, TypeOf(env, k))
              && key != EntityIndexKey(env.worldName, e) && key != TypeIndexKey(env.worldName, TypeOf(env, k))
              ==> key in r.0 && r.0[key] == st[key]
    ensures forall key :: key in r.0 ==> key in st
    ensures r.1.Err? ==> r.1.error == RedisError
    // The first `SREM` fails: only the `DEL` has happened.
    ensures HoldsString(st, EntityIndexKey(env.worldName, e)) ==>
              r.0 == st - {DataKey(env.worldName, e, TypeOf(env, k))}
    // The second `SREM` fails: the type index is as it was.
    ensures var ek, tk := EntityIndexKey(env.worldName, e), TypeIndexKey(env.worldName, TypeOf(env, k));
            !HoldsString(st, ek) && HoldsString(st, tk) ==> tk in r.0 && r.0[tk] == st[tk]
    // Once the first `SREM` has run, the entity index has lost the type (and,
    // when the two index keys coincide, the entity too).
    ensures var t := TypeOf(env, k);
            var ek, tk := EntityIndexKey(env.worldName, e), TypeIndexKey(env.worldName, t);
            !HoldsString(st, ek) ==>
              IsSetAt(r.0, ek, MembersAt(st, ek) - {Dec(t.number)} - (if ek == tk then {Dec(e.number)} else {}))
    ensures var t := TypeOf(env, k);
            var ek, tk := EntityIndexKey(env.worldName, e), TypeIndexKey(env.worldName, t);
            r.1.Ok? ==>
              IsSetAt(r.0, tk, MembersAt(st, tk) - {Dec(e.number)} - (if ek == tk then {Dec(t.number)} else {}))
  {
    var w, t := env.worldName, TypeOf(env, k);
    var dk, ek, tk := DataKey(w, e, t), EntityIndexKey(w, e), TypeIndexKey(w, t);
    DataKeyNotIndexKey(w, e, t, e.number);
    DataKeyNotIndexKey(w, e, t, t.number);
    var st1 := st - {dk};
    assert HoldsString(st1, ek) == HoldsString(st, ek) && HoldsString(st1, tk) == HoldsString(st, tk);
    assert MembersAt(st1, ek) == MembersAt(st, ek) && MembersAt(st1, tk) == MembersAt(st, tk);
    var (st3, ok) := SRemBoth(st1, ek, Dec(t.number), tk, Dec(e.number));
    (st3, if ok then Ok(()) else Err(RedisError))
  }

  /**
   * An index key other than the deleted entity's own keeps a member across
   * a delete, unless it is the type index and the member is that entity.
   */
  lemma DeleteKeepsIndexMember(env: Env, st: Store, k: ComponentKind, e: EntityId, n: nat, m: string)
    requires n != e.number
    requires n == TypeOf(env, k).number ==> m != Dec(e.number)
    requires m in MembersAt(st, IndexKey(env.worldName, n))
    ensures m in MembersAt(DeleteSteps(env, st, k, e).0, IndexKey(env.worldName, n))
  {
    var w, t := env.worldName, TypeOf(env, k);
    var key, dk, ek, tk := IndexKey(w, n), DataKey(w, e, t), EntityIndexKey(w, e), TypeIndexKey(w, t);
    IndexKeyInjective(w, n, e.number);
    IndexKeyInjective(w, n, t.number);
    DataKeyNotIndexKey(w, e, t, n);
    assert key != ek && key != dk;
  }

  /**
   * Without an index collision (the type `u` is not numbered like the
   * deleted entity `e`), deleting a component of `e` keeps every fact about
   * another entity `e'`: its data key and both directions of its index
   * membership.
   */
  lemma DeleteKeepsOtherEntity(env: Env, st: Store, k: ComponentKind, e: EntityId, e': EntityId, u: ComponentTypeId)
    requires e'.number != e.number && u.number != e.number
    ensures var w, st' := env.worldName, DeleteSteps(env, st, k, e).0;
      && (Dec(e'.number) in MembersAt(st, TypeIndexKey(w, u)) ==> Dec(e'.number) in MembersAt(st', TypeIndexKey(w, u)))
      && (Dec(u.number) in MembersAt(st, EntityIndexKey(w, e')) ==> Dec(u.number) in MembersAt(st', EntityIndexKey(w, e')))
      && (DataKey(w, e', u) in st ==> DataKey(w, e', u) in st' && st'[DataKey(w, e', u)] == st[DataKey(w, e', u)])
  {
    var w, t := env.worldName, TypeOf(env, k);
    RadixRoundTrip(e.number, 10);
    RadixRoundTrip(e'.number, 10);
    RadixRoundTrip(u.number, 10);
    if Dec(e'.number) in MembersAt(st, TypeIndexKey(w, u)) {
      DeleteKeepsIndexMember(env, st, k, e, u.number, Dec(e'.number));
    }
    if Dec(u.number) in MembersAt(st, EntityIndexKey(w, e')) {
      DeleteKeepsIndexMember(env, st, k, e, e'.number, Dec(u.number));
    }
    DataKeyInjective(w, e', u, e, t);
    DataKeyNotIndexKey(w, e', u, e.number);
    DataKeyNotIndexKey(w, e', u, t.number);
  }

  /** The same across two deletes, of any two components of two other entities. */
  lemma DeleteTwiceKeepsOtherEntity(env: Env, st: Store, k1: ComponentKind, e1: EntityId, k2: ComponentKind, e2: EntityId,
                                    e': EntityId, u: ComponentTypeId)
    requires e'.number != e1.number && u.number != e1.number
    requires e'.number != e2.number && u.number != e2.number
    ensures var w, st' := env.worldName, DeleteSteps(env, DeleteSteps(env, st, k1, e1).0, k2, e2).0;
      && (Dec(e'.number) in MembersAt(st, TypeIndexKey(w, u)) ==> Dec(e'.number) in MembersAt(st', TypeIndexKey(w, u)))
      && (Dec(u.number) in MembersAt(st, EntityIndexKey(w, e')) ==> Dec(u.number) in MembersAt(st', EntityIndexKey(w, e')))
      && (DataKey(w, e', u) in st ==> DataKey(w, e', u) in st' && st'[DataKey(w, e', u)] == st[DataKey(w, e', u)])
  {
    DeleteKeepsOtherEntity(env, st, k1, e1, e', u);
    DeleteKeepsOtherEntity(env, DeleteSteps(env, st, k1, e1).0, k2, e2, e', u);
  }

  /**
   * The index collision on delete: entity `b` has a component of type `u`,
   * and `u` is numbered like entity `a`, so `b`'s membership in `u`'s type
   * index sits in `a`'s entity index. Deleting `a`'s component of the type
   * numbered like `b` removes `b` from that set while `b`'s data stays.
   */
  lemma DeleteDropsOtherEntity(env: Env, k: ComponentKind, a: EntityId, b: EntityId, u: ComponentTypeId, s: string)
    requires TypeOf(env, k).number == b.number && u.number == a.number && a.number != b.number
    ensures var w := env.worldName;
      var st := map[TypeIndexKey(w, u) := Members({Dec(b.number)}), DataKey(w, b, u) := Str(s)];
      var r := DeleteSteps(env, st, k, a);
      && r.1.Ok?
      && Dec(b.number) in MembersAt(st, TypeIndexKey(w, u)) && Dec(b.number) !in MembersAt(r.0, TypeIndexKey(w, u))
      && DataKey(w, b, u) in r.0 && r.0[DataKey(w, b, u)] == Str(s)
  {
    var w, t := env.worldName, TypeOf(env, k);
    var st := map[TypeIndexKey(w, u) := Members({Dec(b.number)}), DataKey(w, b, u) := Str(s)];
    assert TypeIndexKey(w, u) == EntityIndexKey(w, a);
    DataKeyNotIndexKey(w, b, u, a.number);
    DataKeyNotIndexKey(w, b, u, b.number);
    DataKeyInjective(w, b, u, a, t);
    IndexKeyInjective(w, a.number, b.number);
    assert !HoldsString(st, EntityIndexKey(w, a)) && !HoldsString(st, TypeIndexKey(w, t));
  }

  // ---------------------------------------------------------------------
  // Looking up entities by component types.

  datatype EntitiesOutcome = Found(ids: set<EntityId>) | Failed(error: WorldError) | Panicked

  function TypeIndexKeys(w: string, ts: seq<ComponentTypeId>): (keys: seq<string>)
    ensures |keys| == |ts| && forall i :: 0 <= i < |ts| ==> keys[i] == TypeIndexKey(w, ts[i])
  {
    seq(|ts|, i requires 0 <= i < |ts| => TypeIndexKey(w, ts[i]))
  }

  /**
   * `get_entities_with_component_type_ids`: `SINTER` of the type indexes,
   * each member parsed as a `u64` and unwrapped (a panic when one does not
   * parse).
   */
  function EntitiesWith(env: Env, st: Store, ts: seq<ComponentTypeId>): (r: EntitiesOutcome)
    ensures r.Failed? <==> SInter(st, TypeIndexKeys(env.worldName, ts)).None?
    ensures r.Failed? ==> r.error == RedisError
  {
    match SInter(st, TypeIndexKeys(env.worldName, ts))
    case None => Failed(RedisError)
    case Some(ms) =>
      if forall m :: m in ms ==> ParseU64(m).Some? then
        Found(set m | m in ms && ParseU64(m).Some? :: NewWithNumber(ParseU64(m).value))
      else Panicked
  }

  /** Every member is the decimal form of a `u64`, as `SADD` of an id writes it. */
  predicate Canonical(ms: set<string>)
  {
    forall m :: m in ms ==> ParseU64(m).Some? && Dec(ParseU64(m).value) == m
  }

  /**
   * With canonical indexes holding no strings, the entities found are
   * exactly those listed in every requested type index.
   */
  lemma EntitiesWithIsIntersection(env: Env, st: Store, ts: seq<ComponentTypeId>)
    requires |ts| > 0
    requires forall i :: 0 <= i < |ts| ==> !HoldsString(st, TypeIndexKey(env.worldName, ts[i]))
    requires forall i :: 0 <= i < |ts| ==> Canonical(MembersAt(st, TypeIndexKey(env.worldName, ts[i])))
    ensures EntitiesWith(env, st, ts).Found?
    ensures forall e :: e in EntitiesWith(env, st, ts).ids <==>
              forall i :: 0 <= i < |ts| ==> Dec(e.number) in MembersAt(st, TypeIndexKey(env.worldName, ts[i]))
  {
    forall e: EntityId
      ensures e in EntitiesWith(env, st, ts).ids <==>
                forall i :: 0 <= i < |ts| ==> Dec(e.number) in MembersAt(st, TypeIndexKey(env.worldName, ts[i]))
    {
      EntityInIntersection(env, st, ts, e);
    }
  }

  /** One entity of the lemma above. */
  lemma EntityInIntersection(env: Env, st: Store, ts: seq<ComponentTypeId>, e: EntityId)
    requires |ts| > 0
    requires forall i :: 0 <= i < |ts| ==> !HoldsString(st, TypeIndexKey(env.worldName, ts[i]))
    requires forall i :: 0 <= i < |ts| ==> Canonical(MembersAt(st, TypeIndexKey(env.worldName, ts[i])))
    ensures EntitiesWith(env, st, ts).Found?
    ensures e in EntitiesWith(env, st, ts).ids <==>
              forall i :: 0 <= i < |ts| ==> Dec(e.number) in MembersAt(st, TypeIndexKey(env.worldName, ts[i]))
  {
    var keys := TypeIndexKeys(env.worldName, ts);
    var ms := SInter(st, keys).value;
    assert forall m :: m in ms ==> m in MembersAt(st, keys[0]);
    var r := EntitiesWith(env, st, ts);
    assert r == Found(set m | m in ms && ParseU64(m).Some? :: NewWithNumber(ParseU64(m).value));
    ParseU64Dec(e.number);
    if forall i :: 0 <= i < |ts| ==> Dec(e.number) in MembersAt(st, TypeIndexKey(env.worldName, ts[i])) {
      assert Dec(e.number) in ms;
      assert NewWithNumber(ParseU64(Dec(e.number)).value) == e;
    }
    if e in r.ids {
      var m :| m in ms && ParseU64(m).Some? && NewWithNumber(ParseU64(m).value) == e;
      assert m in MembersAt(st, keys[0]);
      assert Dec(e.number) == m;
    }
  }

  /** A member that is not a number makes the lookup panic. */
  lemma EntitiesWithPanics(env: Env, st: Store, t: ComponentTypeId)
    requires TypeIndexKey(env.worldName, t) in st
    requires st[TypeIndexKey(env.worldName, t)] == Members({"x"})
    ensures EntitiesWith(env, st, [t]) == Panicked
  {
    assert TypeIndexKeys(env.worldName, [t])[0] == TypeIndexKey(env.worldName, t);
    assert "x" in SInter(st, TypeIndexKeys(env.worldName, [t])).value;
    assert ParseU64("x").None?;
  }

  /**
   * What flushing one buffered write does when neither index holds a
   * string: the data key holds the serialization and each index gains its
   * member (both members land in one set when the two index keys coincide).
   */
  lemma WriteEffects(env: Env, st: Store, e: EntityId, v: ComponentValue)
    requires env.codec.encode(v).Some?
    requires !HoldsString(st, EntityIndexKey(env.worldName, e))
    requires !HoldsString(st, TypeIndexKey(env.worldName, TypeOf(env, KindOf(v))))
    ensures var w, t := env.worldName, TypeOf(env, KindOf(v));
      var (st', ok) := RunPipeline(st, WriteCmds(env, e, v).value);
      && ok
      && DataKey(w, e, t) in st' && st'[DataKey(w, e, t)] == Str(env.codec.encode(v).value)
      && !HoldsString(st', EntityIndexKey(w, e)) && !HoldsString(st', TypeIndexKey(w, t))
      && MembersAt(st', EntityIndexKey(w, e)) == MembersAt(st, EntityIndexKey(w, e)) + {Dec(t.number)}
           + (if EntityIndexKey(w, e) == TypeIndexKey(w, t) then {Dec(e.number)} else {})
      && MembersAt(st', TypeIndexKey(w, t)) == MembersAt(st, TypeIndexKey(w, t)) + {Dec(e.number)}
           + (if EntityIndexKey(w, e) == TypeIndexKey(w, t) then {Dec(t.number)} else {})
  {
    var w, t := env.worldName, TypeOf(env, KindOf(v));
    var dk, ek, tk := DataKey(w, e, t), EntityIndexKey(w, e), TypeIndexKey(w, t);
    DataKeyNotIndexKey(w, e, t, e.number);
    DataKeyNotIndexKey(w, e, t, t.number);
    RunSetThenTwoAdds(st, dk, env.codec.encode(v).value, ek, Dec(t.number), tk, Dec(e.number));
    var st1 := st[dk := Str(env.codec.encode(v).value)];
    assert MembersAt(st1, ek) == MembersAt(st, ek) && MembersAt(st1, tk) == MembersAt(st, tk);
    TwoAddsMembers(st1, ek, Dec(t.number), tk, Dec(e.number));
    assert WriteCmds(env, e, v).value == [Set(dk, env.codec.encode(v).value), SAdd(ek, Dec(t.number)), SAdd(tk, Dec(e.number))];
  }

  /**
   * The shared key shape at work: after writing one component of type `t`
   * for entity `e` into an empty store, asking for the entities having the
   * type whose number is `e`'s reports an entity numbered like `t`, because
   * the entity index of `e` is read as that type's index.
   */
  lemma IndexCollisionReportsTypeAsEntity(env: Env, e: EntityId, v: ComponentValue)
    requires env.codec.encode(v).Some?
    ensures var st := RunPipeline(map[], WriteCmds(env, e, v).value).0;
      var r := EntitiesWith(env, st, [TypeIdWithNumber(e.number)]);
      r.Found? && NewWithNumber(TypeOf(env, KindOf(v)).number) in r.ids
  {
    var w, t := env.worldName, TypeOf(env, KindOf(v));
    var ek := EntityIndexKey(w, e);
    WriteEffects(env, map[], e, v);
    var st := RunPipeline(map[], WriteCmds(env, e, v).value).0;
    var others := TypeIdWithNumber(e.number);
    assert TypeIndexKey(w, others) == ek;
    ParseU64Dec(e.number);
    ParseU64Dec(t.number);
    assert MembersAt(st, ek) <= {Dec(t.number), Dec(e.number)};
    assert Canonical(MembersAt(st, ek));
    EntitiesWithIsIntersection(env, st, [others]);
  }

  // ---------------------------------------------------------------------
  // The component cache.

  type Cache = map<ComponentInstanceId, Component>

  /**
   * `get_component_ref::<T>`: on a cache hit no store read happens, and the
   * cached component either has type `T` or the lookup fails; on a miss a
   * successful read is cached; any other miss fails and leaves the cache.
   */
  function Lookup(env: Env, st: Store, cache: Cache, k: ComponentKind, e: EntityId): (r: (Result<ComponentValue, WorldError>, Cache))
    ensures r.0.Ok? ==> KindOf(r.0.value) == k
    ensures r.0.Err? ==> r.0.error == ComponentNotFound && r.1 == cache
    ensures var id := InstanceIdOf(env.naming, k, e);
      && (id in cache ==> r.1 == cache && (r.0.Ok? <==> KindOf(cache[id].data) == k)
                          && (r.0.Ok? ==> r.0.value == cache[id].data))
      && (id !in cache ==> (r.0.Ok? <==> GetComponentFrom(env, st, k, e).Ok?)
                           && (r.0.Ok? ==> r.0 == GetComponentFrom(env, st, k, e)
                                           && r.1 == cache[id := NewComponent(env.naming, r.0.value)]))
  {
    var id := InstanceIdOf(env.naming, k, e);
    if id in cache then
      match Downcast(cache[id], k)
      case Some(v) => (Ok(v), cache)
      case None => (Err(ComponentNotFound), cache)
    else
      match GetComponentFrom(env, st, k, e)
      case Ok(v) => (Ok(v), cache[id := NewComponent(env.naming, v)])
      case Err(_) => (Err(ComponentNotFound), cache)
  }

  /** Every cached component sits under its own instance id and was built by `Component::new`. */
  predicate CacheTyped(nm: Naming, cache: Cache)
  {
    forall id :: id in cache ==>
      cache[id] == NewComponent(nm, cache[id].data) && id.componentType == cache[id].typeId
  }

  lemma LookupKeepsCacheTyped(env: Env, st: Store, cache: Cache, k: ComponentKind, e: EntityId)
    requires CacheTyped(env.naming, cache)
    ensures CacheTyped(env.naming, Lookup(env, st, cache, k, e).1)
  {
  }

  /**
   * In a well-typed cache a hit of the wrong type needs two distinct
   * component types whose names hash to the same type id.
   */
  lemma MismatchNeedsTypeIdCollision(env: Env, st: Store, cache: Cache, k: ComponentKind, e: EntityId)
    requires CacheTyped(env.naming, cache)
    requires InstanceIdOf(env.naming, k, e) in cache
    requires Lookup(env, st, cache, k, e).0.Err?
    ensures var c := cache[InstanceIdOf(env.naming, k, e)];
      KindOf(c.data) != k && TypeOf(env, KindOf(c.data)) == TypeOf(env, k)
  {
  }

  /** A cache hit does not depend on the store: a newer stored value is not seen. */
  lemma CacheHitIgnoresStore(env: Env, st1: Store, st2: Store, cache: Cache, k: ComponentKind, e: EntityId)
    requires InstanceIdOf(env.naming, k, e) in cache
    ensures Lookup(env, st1, cache, k, e) == Lookup(env, st2, cache, k, e)
  {
  }

  /**
   * Once a component has been read, later writes of a new value, even
   * flushed, are invisible to `get_component_ref`.
   */
  lemma StaleAfterCachedRead(env: Env, st: Store, e: EntityId, v1: ComponentValue, v2: ComponentValue)
    requires KindOf(v1) == KindOf(v2)
    requires env.codec.encode(v1).Some? && env.codec.encode(v2).Some?
    requires Decode(env.codec, KindOf(v1), env.codec.encode(v1).value) == Some(v1)
    ensures var k := KindOf(v1);
      var st1 := RunPipeline(st, WriteCmds(env, e, v1).value).0;
      var (r1, cache1) := Lookup(env, st1, map[], k, e);
      var st2 := RunPipeline(st1, WriteCmds(env, e, v2).value).0;
      r1 == Ok(v1) && Lookup(env, st2, cache1, k, e).0 == Ok(v1)
  {
    WriteThenRead(env, st, [], e, v1);
    assert [] + WriteCmds(env, e, v1).value == WriteCmds(env, e, v1).value;
  }

  // ---------------------------------------------------------------------
  // Destroying a world.

  /**
   * `destroy_world` as written: the listing of the world's keys is
   * discarded and only the literal key `"test:*"` is deleted.
   */
  function DestroyAsWritten(st: Store): (r: Store)
    ensures forall key :: key in st && key != "test:*" ==> key in r && r[key] == st[key]
    ensures "test:*" !in r
    ensures forall key :: key in r ==> key in st
  {
    st - {"test:*"}
  }

  /** Every key outside `"test:*"` survives, so in particular every component of the world. */
  lemma DestroyKeepsData(st: Store, w: string, e: EntityId, t: ComponentTypeId)
    requires DataKey(w, e, t) in st
    ensures DataKey(w, e, t) in DestroyAsWritten(st)
  {
    var dk := DataKey(w, e, t);
    RadixAvoids(t.number, 10, '*');
    assert dk[|dk| - 1] == Dec(t.number)[|Dec(t.number)| - 1];
  }

  /** What destroying the world evidently means: every key with the world's prefix goes. */
  function DestroyScoped(w: string, st: Store): (r: Store)
    ensures forall key :: key in r ==> key in st && r[key] == st[key] && !(w + ":" <= key)
    ensures forall key :: key in st && !(w + ":" <= key) ==> key in r
  {
    map key | key in st && !(w + ":" <= key) :: st[key]
  }

  /** The scoped delete removes the world's components and leaves other worlds' keys. */
  lemma DestroyScopedRemovesOnlyTheWorld(st: Store, w: string, w': string, e: EntityId, t: ComponentTypeId)
    requires ':' !in w && ':' !in w' && w != w'
    requires DataKey(w', e, t) in st
    ensures DataKey(w, e, t) !in DestroyScoped(w, st)
    ensures DataKey(w', e, t) in DestroyScoped(w, st)
  {
    var x := Dec(e.number) + ":" + Dec(t.number);
    assert DataKey(w, e, t) == w + ":" + x;
    assert DataKey(w', e, t) == w' + ":" + x;
    if w + ":" <= DataKey(w', e, t) {
      var rest := DataKey(w', e, t)[|w| + 1..];
      assert DataKey(w', e, t) == w + ":" + rest;
      KeyDeterminesWorld(w, rest, w', x);
      assert false;
    }
  }

  // ---------------------------------------------------------------------
  // The world object.

  class ServerWorld {
    const env: Env
    /** The remote store's contents. */
    var backend: Store
    /** `write_pipeline`: commands buffered but not yet necessarily sent. */
    var pipeline: seq<Cmd>
    /** `cached_components`. */
    var cache: Cache

    /** The state `ServerWorld::new` sets up once connected. */
    constructor (env: Env, st: Store)
      ensures this.env == env && backend == st && pipeline == [] && cache == map[]
    {
      this.env := env;
      backend := st;
      pipeline := [];
      cache := map[];
    }

    /** `write_component`: buffers three commands; the store and the cache are not touched. */
    method WriteComponent(e: EntityId, v: ComponentValue) returns (r: Result<(), WorldError>)
      modifies this
      ensures r.Err? <==> WriteCmds(env, e, v).None?
      ensures r.Err? ==> r.error == SerdeError && pipeline == old(pipeline)
      ensures r.Ok? ==> pipeline == old(pipeline) + WriteCmds(env, e, v).value
      ensures backend == old(backend) && cache == old(cache)
    {
      var cmds := WriteCmds(env, e, v);
      if cmds.None? {
        return Err(SerdeError);
      }
      pipeline := pipeline + cmds.value;
      r := Ok(());
    }

    /** `write_all_changes`: sends the whole buffer, which stays as it was. */
    method WriteAllChanges() returns (r: Result<(), WorldError>)
      modifies this
      ensures backend == RunPipeline(old(backend), old(pipeline)).0
      ensures r.Ok? <==> RunPipeline(old(backend), old(pipeline)).1
      ensures r.Err? ==> r.error == RedisError
      ensures pipeline == old(pipeline) && cache == old(cache)
    {
      var (st, ok) := RunPipeline(backend, pipeline);
      backend := st;
      r := if ok then Ok(()) else Err(RedisError);
    }

    /** The flush as evidently intended: the buffer is emptied once sent. */
    method WriteAllChangesAndClear() returns (r: Result<(), WorldError>)
      modifies this
      ensures backend == RunPipeline(old(backend), old(pipeline)).0
      ensures r.Ok? <==> RunPipeline(old(backend), old(pipeline)).1
      ensures pipeline == [] && cache == old(cache)
    {
      var (st, ok) := RunPipeline(backend, pipeline);
      backend := st;
      pipeline := [];
      r := if ok then Ok(()) else Err(RedisError);
    }

    /** `delete_component`: three immediate commands, stopping at the first failure. */
    method DeleteComponent(k: ComponentKind, e: EntityId) returns (r: Result<(), WorldError>)
      modifies this
      ensures (backend, r) == DeleteSteps(env, old(backend), k, e)
      ensures pipeline == old(pipeline) && cache == old(cache)
    {
      var w, t := env.worldName, TypeOf(env, k);
      backend := backend - {DataKey(w, e, t)};
      var st := Apply(backend, SRem(EntityIndexKey(w, e), Dec(t.number)));
      if st.None? {
        return Err(RedisError);
      }
      backend := st.value;
      st := Apply(backend, SRem(TypeIndexKey(w, t), Dec(e.number)));
      if st.None? {
        return Err(RedisError);
      }
      backend := st.value;
      r := Ok(());
    }

    /** `get_entities_with_component_type_ids`. */
    method GetEntitiesWithComponentTypeIds(ts: seq<ComponentTypeId>) returns (r: EntitiesOutcome)
      ensures r == EntitiesWith(env, backend, ts)
    {
      r := EntitiesWith(env, backend, ts);
    }

    /** `get_component`. */
    method GetComponent(k: ComponentKind, e: EntityId) returns (r: Result<ComponentValue, WorldError>)
      ensures r == GetComponentFrom(env, backend, k, e)
    {
      r := GetComponentFrom(env, backend, k, e);
    }

    /** `get_component_ref`: a fresh reference onto the cached or newly read component. */
    method GetComponentRef(k: ComponentKind, e: EntityId) returns (r: Result<ComponentRef, WorldError>)
      modifies this
      ensures var (value, cache') := Lookup(env, old(backend), old(cache), k, e);
        && cache == cache'
        && (r.Ok? <==> value.Ok?)
        && (r.Err? ==> r.error == ComponentNotFound)
        && (r.Ok? ==> fresh(r.value) && r.value.Valid() && r.value.kind == k
                      && r.value.data == value.value && r.value.changedData == None)
      ensures backend == old(backend) && pipeline == old(pipeline)
    {
      var id := InstanceIdOf(env.naming, k, e);
      if id in cache {
        var ref := GetRef(cache[id], k);
        if ref.Some? {
          r := Ok(ref.value);
        } else {
          r := Err(ComponentNotFound);
        }
      } else {
        var got := GetComponentFrom(env, backend, k, e);
        if got.Ok? {
          var c := NewComponent(env.naming, got.value);
          cache := cache[id := c];
          var ref := GetRef(c, k);
          r := Ok(ref.value);
        } else {
          r := Err(ComponentNotFound);
        }
      }
    }

    /** `destroy_world` as written. */
    method DestroyWorld() returns (r: Result<(), WorldError>)
      modifies this
      ensures backend == DestroyAsWritten(old(backend)) && r == Ok(())
      ensures pipeline == old(pipeline) && cache == old(cache)
    {
      backend := backend - {"test:*"};
      r := Ok(());
    }

    /** `destroy_world` as evidently intended: every key of this world is deleted. */
    method DestroyWorldScoped() returns (r: Result<(), WorldError>)
      modifies this
      ensures backend == DestroyScoped(env.worldName, old(backend)) && r == Ok(())
      ensures pipeline == old(pipeline) && cache == old(cache)
    {
      backend := DestroyScoped(env.worldName, backend);
      r := Ok(());
    }
  }

  // ---------------------------------------------------------------------
  // The flush that never clears.

  /**
   * Write a component, flush, delete it, flush again: the second flush
   * resends the buffered write and the deleted component is back.
   */
  method ResurrectionAsWritten(env: Env, st: Store, e: EntityId, v: ComponentValue)
    returns (afterDelete: Result<ComponentValue, WorldError>, afterSecondFlush: Result<ComponentValue, WorldError>)
    requires env.codec.encode(v).Some?
    requires Decode(env.codec, KindOf(v), env.codec.encode(v).value) == Some(v)
    ensures afterDelete == Err(RedisError) && afterSecondFlush == Ok(v)
  {
    var world := new ServerWorld(env, st);
    var _ := world.WriteComponent(e, v);
    var _ := world.WriteAllChanges();
    var _ := world.DeleteComponent(KindOf(v), e);
    afterDelete := world.GetComponent(KindOf(v), e);
    WriteThenRead(env, world.backend, [], e, v);
    assert [] + world.pipeline == world.pipeline;
    var _ := world.WriteAllChanges();
    afterSecondFlush := world.GetComponent(KindOf(v), e);
  }

  /** The same steps with the clearing flush: the component stays deleted. */
  method NoResurrectionWhenCleared(env: Env, st: Store, e: EntityId, v: ComponentValue)
    returns (afterDelete: Result<ComponentValue, WorldError>, afterSecondFlush: Result<ComponentValue, WorldError>)
    requires env.codec.encode(v).Some?
    ensures afterDelete == Err(RedisError) && afterSecondFlush == Err(RedisError)
  {
    var world := new ServerWorld(env, st);
    var _ := world.WriteComponent(e, v);
    var _ := world.WriteAllChangesAndClear();
    var _ := world.DeleteComponent(KindOf(v), e);
    afterDelete := world.GetComponent(KindOf(v), e);
    var _ := world.WriteAllChangesAndClear();
    afterSecondFlush := world.GetComponent(KindOf(v), e);
  }
}
