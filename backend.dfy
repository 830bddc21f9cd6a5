/**
 * The key-value store the world server talks to, reduced to the Redis
 * commands it issues: each key holds either a string or a set of strings.
 * Transport, replies other than success or failure, and every other command
 * are outside this model.
 */
module RedisStore {
  import opened Wrappers

  datatype Value = Str(s: string) | Members(members: set<string>)

  type Store = map<string, Value>

  datatype Cmd =
    | Set(key: string, val: string)
    | SAdd(key: string, member: string)
    | SRem(key: string, member: string)
    | Del(key: string)

  /** The members of the set at `key`, where a missing key reads as the empty set. */
  function MembersAt(st: Store, key: string): set<string>
  {
    if key in st && st[key].Members? then st[key].members else {}
  }

  /** `key` holds a string, which makes every set command on it fail. */
  predicate HoldsString(st: Store, key: string)
  {
    key in st && st[key].Str?
  }

  /**
   * `key` holds the set `s` the way Redis keeps sets: absent when `s` is
   * empty, otherwise a set value with exactly those members.
   */
  predicate IsSetAt(st: Store, key: string, s: set<string>)
  {
    if s == {} then key !in st else key in st && st[key] == Members(s)
  }

  /**
   * One command. `SET` and `DEL` always succeed; `SADD` and `SREM` fail
   * (None) on a key holding a string. `SREM` of the last member removes the
   * key, as Redis never keeps an empty set.
   */
  function Apply(st: Store, c: Cmd): (r: Option<Store>)
    ensures r.None? <==> (c.SAdd? || c.SRem?) && HoldsString(st, c.key)
    ensures r.Some? ==> forall k :: k in st && k != c.key ==> k in r.value && r.value[k] == st[k]
    ensures r.Some? ==> forall k :: k in r.value && k != c.key ==> k in st
    ensures c.Set? ==> r.Some? && c.key in r.value && r.value[c.key] == Str(c.val)
    ensures c.SAdd? && r.Some? ==> IsSetAt(r.value, c.key, MembersAt(st, c.key) + {c.member})
    ensures c.SRem? && r.Some? ==> IsSetAt(r.value, c.key, MembersAt(st, c.key) - {c.member})
    ensures c.Del? ==> r.Some? && c.key !in r.value
  {
    match c
    case Set(k, v) => Some(st[k := Str(v)])
    case SAdd(k, m) =>
      if HoldsString(st, k) then None else Some(st[k := Members(MembersAt(st, k) + {m})])
    case SRem(k, m) =>
      if HoldsString(st, k) then None
      else if MembersAt(st, k) - {m} == {} then Some(st - {k})
      else Some(st[k := Members(MembersAt(st, k) - {m})])
    case Del(k) => Some(st - {k})
  }

  /**
   * A non-transactional pipeline: every command runs in order, a failing one
   * leaves the store as it was, and the pipeline as a whole reports failure
   * when any of its commands failed.
   */
  function RunPipeline(st: Store, cmds: seq<Cmd>): (Store, bool)
    decreases |cmds|
  {
    if |cmds| == 0 then (st, true)
    else
      var (st', ok) := RunPipeline(st, cmds[..|cmds| - 1]);
      match Apply(st', cmds[|cmds| - 1])
      case Some(st'') => (st'', ok)
      case None => (st', false)
  }

  /** `GET`: the string at `key`; a missing key or a set is a failure for a `String` reply. */
  function Get(st: Store, key: string): (r: Option<string>)
    ensures r.Some? <==> HoldsString(st, key)
    ensures r.Some? ==> r.value == st[key].s
  {
    if HoldsString(st, key) then Some(st[key].s) else None
  }

  /**
   * `SINTER`: the members common to the sets at `keys`. It fails with no
   * keys (wrong number of arguments) or when some key holds a string; a
   * missing key is the empty set.
   */
  function SInter(st: Store, keys: seq<string>): (r: Option<set<string>>)
    ensures r.None? <==> |keys| == 0 || exists i :: 0 <= i < |keys| && HoldsString(st, keys[i])
    ensures r.Some? ==> forall m :: m in r.value <==> forall i :: 0 <= i < |keys| ==> m in MembersAt(st, keys[i])
    decreases |keys|
  {
    if |keys| == 0 then None
    else if HoldsString(st, keys[0]) then None
    else if |keys| == 1 then Some(MembersAt(st, keys[0]))
    else
      match SInter(st, keys[1..])
      case None => None
      case Some(rest) => Some(MembersAt(st, keys[0]) * rest)
  }

  // ---------------------------------------------------------------------
  // Laws of the pipeline.

  lemma RunPipelineSnoc(st: Store, cmds: seq<Cmd>, c: Cmd)
    ensures var (st', ok) := RunPipeline(st, cmds);
      RunPipeline(st, cmds + [c]) ==
        match Apply(st', c)
        case Some(st'') => (st'', ok)
        case None => (st', false)
  {
    assert (cmds + [c])[..|cmds|] == cmds;
  }

  /** Running two pipelines one after the other is running their concatenation. */
  lemma {:induction false} RunPipelineAppend(st: Store, p: seq<Cmd>, q: seq<Cmd>)
    ensures var (st1, ok1) := RunPipeline(st, p);
      var (st2, ok2) := RunPipeline(st1, q);
      RunPipeline(st, p + q) == (st2, ok1 && ok2)
    decreases |q|
  {
    if |q| == 0 {
      assert p + q == p;
    } else {
      var q' := q[..|q| - 1];
      RunPipelineAppend(st, p, q');
      assert p + q == (p + q') + [q[|q| - 1]];
      RunPipelineSnoc(st, p + q', q[|q| - 1]);
    }
  }

  /** A `SET` on its own cannot fail and overwrites whatever the key held. */
  lemma SetAlwaysSucceeds(st: Store, k: string, v: string)
    ensures RunPipeline(st, [Set(k, v)]) == (st[k := Str(v)], true)
  {
    assert [Set(k, v)][..0] == [];
  }

  /**
   * A `SET` followed by two `SADD`s on other keys holding no string: all
   * three succeed, and each set gains its member.
   */
  lemma RunSetThenTwoAdds(st: Store, dk: string, s: string, ek: string, m1: string, tk: string, m2: string)
    requires dk != ek && dk != tk
    requires !HoldsString(st, ek) && !HoldsString(st, tk)
    ensures var st1 := st[dk := Str(s)];
      var st2 := st1[ek := Members(MembersAt(st1, ek) + {m1})];
      RunPipeline(st, [Set(dk, s), SAdd(ek, m1), SAdd(tk, m2)])
        == (st2[tk := Members(MembersAt(st2, tk) + {m2})], true)
  {
    var c0, c1, c2 := Set(dk, s), SAdd(ek, m1), SAdd(tk, m2);
    RunPipelineSnoc(st, [], c0);
    RunPipelineSnoc(st, [c0], c1);
    RunPipelineSnoc(st, [c0, c1], c2);
    assert [] + [c0] == [c0];
    assert [c0] + [c1] == [c0, c1];
    assert [c0, c1] + [c2] == [c0, c1, c2];
  }

  /**
   * A `SET` followed by two `SADD`s on other keys: whether or not the
   * `SADD`s fail, the `SET` key ends up holding its string.
   */
  lemma SetSurvivesTwoAdds(st: Store, dk: string, s: string, ek: string, m1: string, tk: string, m2: string)
    requires dk != ek && dk != tk
    ensures var st' := RunPipeline(st, [Set(dk, s), SAdd(ek, m1), SAdd(tk, m2)]).0;
      dk in st' && st'[dk] == Str(s)
  {
    var c0, c1, c2 := Set(dk, s), SAdd(ek, m1), SAdd(tk, m2);
    RunPipelineSnoc(st, [], c0);
    RunPipelineSnoc(st, [c0], c1);
    RunPipelineSnoc(st, [c0, c1], c2);
    assert [] + [c0] == [c0];
    assert [c0] + [c1] == [c0, c1];
    assert [c0, c1] + [c2] == [c0, c1, c2];
  }

  /**
   * Two successful `SADD`s: each set gains its member, and both members
   * land in one set when the keys coincide.
   */
  lemma TwoAddsMembers(st: Store, ek: string, m1: string, tk: string, m2: string)
    ensures var st2 := st[ek := Members(MembersAt(st, ek) + {m1})];
      var st3 := st2[tk := Members(MembersAt(st2, tk) + {m2})];
      && !HoldsString(st3, ek) && !HoldsString(st3, tk)
      && MembersAt(st3, ek) == MembersAt(st, ek) + {m1} + (if ek == tk then {m2} else {})
      && MembersAt(st3, tk) == MembersAt(st, tk) + {m2} + (if ek == tk then {m1} else {})
  {
    var st2 := st[ek := Members(MembersAt(st, ek) + {m1})];
    assert MembersAt(st2, ek) == MembersAt(st, ek) + {m1};
    if ek == tk {
      assert MembersAt(st2, tk) == MembersAt(st, tk) + {m1};
    } else {
      assert MembersAt(st2, tk) == MembersAt(st, tk);
    }
  }

  /**
   * Two immediate `SREM`s, the second sent only when the first succeeded:
   * the store after the last one that ran, and whether both ran.
   */
  function SRemBoth(st: Store, k1: string, m1: string, k2: string, m2: string): (r: (Store, bool))
    ensures r.1 <==> !HoldsString(st, k1) && !HoldsString(st, k2)
    ensures forall key :: key in st && key != k1 && key != k2 ==> key in r.0 && r.0[key] == st[key]
    ensures forall key :: key in r.0 ==> key in st
    ensures HoldsString(st, k1) ==> r.0 == st
    ensures !HoldsString(st, k1) && HoldsString(st, k2) ==> k2 in r.0 && r.0[k2] == st[k2]
    ensures !HoldsString(st, k1) ==>
              IsSetAt(r.0, k1, MembersAt(st, k1) - {m1} - (if k1 == k2 then {m2} else {}))
    ensures r.1 ==> IsSetAt(r.0, k2, MembersAt(st, k2) - {m2} - (if k1 == k2 then {m1} else {}))
  {
    match Apply(st, SRem(k1, m1))
    case None => (st, false)
    case Some(st1) =>
      assert HoldsString(st1, k2) == HoldsString(st, k2);
      assert MembersAt(st1, k2) == MembersAt(st, k2) - (if k1 == k2 then {m1} else {});
      match Apply(st1, SRem(k2, m2))
      case None => (st1, false)
      case Some(st2) => (st2, true)
  }
}
