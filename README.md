# mmo world core, modelled in Dafny

This project models the core of a small multiplayer game server. It covers two crates:

- `mmolib`, the library shared by client and server. The model covers:
  - the identifier types (`EntityId`, `ComponentTypeId`, `ComponentInstanceId`);
  - the chunk and position arithmetic that packs a block position into a 64-bit chunk id;
  - the raw-descriptor trie (`RawTree`);
  - the type-erased component container `Component` and its copy-on-write reference `ComponentRef`.
- `mmoserv`, the world server. The model covers:
  - the change records (`ChangeTracker`);
  - the query builder and its structural hash (`Query`);
  - the world store protocol of `ServerWorld`, which the model runs over an abstract key-value store.

The abstract store has the Redis commands the server issues: `SET`, `GET`, `SADD`, `SREM`, `DEL` and `SINTER`, plus non-transactional pipelines. The model covers how the server:

- lays out its key space (`{w}:{e}:{t}` for data, `{w}:{e}` and `{w}:{t}` for the two indexes). The two index shapes are the same, so an entity and a component type with equal numbers share one index key;
- buffers writes;
- deletes immediately;
- intersects indexes;
- caches components it has read.

One module per source file:

| file | module | source |
|---|---|---|
| `wrappers.dfy` | `Wrappers` | `Option` and `Result` |
| `fmt.dfy` | `Fmt` | integer widths; decimal and upper-case hex rendering (`{}` and `{:X}`); `u64` parsing (`str::parse::<u64>`) |
| `entity_id.dfy` | `EntityIds` | `mmolib/src/entity_id.rs` |
| `component.dfy` | `Components` | `mmolib/src/component.rs`; `ComponentRef` is a class whose private copy is updated in place |
| `chunk.dfy` | `Chunks` | `mmolib/src/chunk.rs`; `>>` is division by a power of two and `<<` is multiplication by a power of two (modulo 2^64); `\|` and `&` are defined bit by bit on naturals |
| `raws.dfy` | `Raws` | `mmolib/src/raws.rs`; `RawTree` is a class whose methods are proved against the `Trie` value functions |
| `change_tracker.dfy` | `ChangeTrackers` | `mmoserv/src/change_tracker.rs` |
| `query.dfy` | `Queries` | `mmoserv/src/query.rs`; `Query` is a class, and its `hash` loop is proved against a left fold; `^` on `u64` is defined through the 64 bits of its operands |
| `backend.dfy` | `RedisStore` | the store commands issued by `mmoserv/src/server_world.rs` |
| `server_world.dfy` | `ServerWorlds` | `mmoserv/src/server_world.rs`; `ServerWorld` is a class holding the store, the write pipeline and the component cache |

Three functions have no definition in the model and are passed in as parameters:

- `std::any::type_name`;
- `hashing::string_hash`;
- `serde_json` encoding and decoding.

`Naming` holds the first two and `Codec` the third. A lemma that needs decoding to undo encoding asks for it in its `requires`.

The set of concrete component types is closed in the model:

- `Position`, the repository's component type;
- `Other(n, …)`, standing for any further type.

This makes both outcomes of `downcast_ref` reachable.

In three places the code does something other than what it evidently intends. The model follows the code:

- `ComponentRef::deref` reads the shared value, never the private copy. A copy-on-write reference is evidently meant to read its own private copy when it has one.
- `write_all_changes` leaves the buffer in place. A flush is evidently meant to clear the buffer once it is sent.
- `destroy_world` deletes a single literal key, not the world's namespace. It is evidently meant to delete every key of the world.

Each point appears under "## Findings", with a corrected definition beside the as-written one.

## Model

| member | source | states |
|---|---|---|
| EntityIds.NewWithNumber | mmolib/src/entity_id.rs:16-18 | the id built from `n` reports `n` from `id()` |
| EntityIds.Id | mmolib/src/entity_id.rs:23-25 | `id()` returns the wrapped number; its contract-bearing partners are `EntityIds.NewWithNumberOfId` and `EntityIds.IdDeterminesEntity` |
| EntityIds.Display | mmolib/src/entity_id.rs:9-13 | renders `entity<{:X}>`; its shape is stated by `EntityIds.DisplayShape` and its injectivity by `EntityIds.DisplayInjective` |
| EntityIds.Default | mmolib/src/entity_id.rs:6 | the derived default id has number 0 |
| EntityIds.IdDeterminesEntity | mmolib/src/entity_id.rs:6-7 | two ids are equal iff their numbers are equal (derived `Eq` on the wrapper) |
| EntityIds.NewWithNumberOfId | mmolib/src/entity_id.rs:16-25 | rebuilding an id from its number gives the same id |
| EntityIds.DisplayShape | mmolib/src/entity_id.rs:9-13 | the text is `entity<`, then upper-case hex digits whose value is the id, then `>`; it starts with `0` only for id 0 (no leading zeros) |
| EntityIds.DisplayInjective | mmolib/src/entity_id.rs:9-13 | two ids with the same text are the same id |
| Fmt.RadixRoundTrip | mmolib/src/entity_id.rs:11 | reading the `{:X}` / `{}` digits back gives the number |
| Fmt.RadixInjective | mmolib/src/component.rs:128-132 | distinct numbers render to distinct digit strings |
| Fmt.RadixNoLeadingZero | mmolib/src/entity_id.rs:11 | a rendering starts with `0` iff the number is 0 |
| Fmt.RadixRoundTripStep | mmolib/src/entity_id.rs:11 | one more digit: the value of a rendering follows from that of the rendering without its last digit |
| Fmt.ParseU64Dec | mmoserv/src/server_world.rs:163 | `parse::<u64>` of the decimal rendering of a `u64` gives it back |
| Fmt.ParseU64NotInjective | mmoserv/src/server_world.rs:163 | `"05"` and `"5"` parse to the same number, so a parsed id does not determine the stored member |
| Fmt.SplitAtLast | mmoserv/src/server_world.rs:13-15 | a string split at the last occurrence of a separator has a unique head and tail |
| Components.TypeIdWithNumber | mmolib/src/component.rs:37-46 | `new_with_number(n).get_number() == n` |
| Components.GetNumber | mmolib/src/component.rs:44-46 | `get_number()` returns the wrapped number; `Components.TypeIdWithNumber` states the round trip |
| Components.GetEntityId | mmolib/src/component.rs:23-25 | the entity half of the pair; `Components.NewExplicit` states that it returns what was stored |
| Components.GetComponentTypeId | mmolib/src/component.rs:20-22 | the type half of the pair; `Components.NewExplicit` states that it returns what was stored |
| Components.NewExplicit | mmolib/src/component.rs:14-25 | `new_explicit(e, t)` gives back `e` from `get_entity_id` and `t` from `get_component_type_id` |
| Components.InstanceIdOf | mmolib/src/component.rs:17-19 | `ComponentInstanceId::new::<T>(e)` pairs `e` with `get_type_id::<T>()` |
| Components.GetTypeId | mmolib/src/component.rs:28-30 | `string_hash(type_name::<T>())`; `Components.TypeIdAgreesWithName` relates it to `get_type_id_from_str` |
| Components.GetTypeIdFromStr | mmolib/src/component.rs:32-34 | `string_hash(s)`; related to `get_type_id` by `Components.TypeIdAgreesWithName` |
| Components.TypeIdAgreesWithName | mmolib/src/component.rs:28-34 | `get_type_id::<T>()` equals `get_type_id_from_str` of `T`'s type name |
| Components.TypeIdDisplayInjective | mmolib/src/component.rs:128-132 | two type ids with the same `type<…>` text are equal |
| Components.TypeIdDisplay | mmolib/src/component.rs:128-132 | renders `type<{:X}>`; `Components.TypeIdDisplayInjective` states that distinct type ids print differently |
| Components.NewComponent | mmolib/src/component.rs:64-70 | stores the value with its type's id; `Components.NewComponentTypeId` and `Components.DowncastOfNew` state what it reports back |
| Components.ComponentTypeIdOf | mmolib/src/component.rs:71-73 | the stored type id; `Components.NewComponentTypeId` states which one it is |
| Components.Downcast | mmolib/src/component.rs:79-80 | `downcast_ref::<U>` on the stored value; `Components.DowncastOfNew` states when it succeeds |
| Components.NewComponentTypeId | mmolib/src/component.rs:64-73 | a component built from a `T` reports `get_type_id::<T>()` |
| Components.DowncastOfNew | mmolib/src/component.rs:77-83 | a component built from `v` downcasts to `v` at `v`'s own type and to nothing at any other type |
| Components.GetRef | mmolib/src/component.rs:77-83 | `get_ref::<U>` is Some iff the stored value's type is `U`; the fresh reference shares the stored value and has no private copy |
| Components.ComponentRef.constructor | mmolib/src/component.rs:79 | a new reference holds the shared value, whose type is its `T`, and no private copy |
| Components.ComponentRef.ClearChangedData | mmolib/src/component.rs:100-102 | the private copy is dropped and the reference stays well typed |
| Components.ComponentRef.Deref | mmolib/src/component.rs:104-109 | the read always returns the shared value, which has type `T` (the unwrap cannot fail), whether or not a private copy exists |
| Components.ComponentRef.DerefMut | mmolib/src/component.rs:117-122 | the first call clones the shared value into the private slot and later calls reuse the slot; the shared value (a `const`) never changes |
| Components.ComponentRef.Assign | mmolib/src/component.rs:117-122 | a write through `deref_mut` lands in the private slot only |
| Components.ComponentRef.ReadCurrent | mmolib/src/component.rs:104-122 | the intended read: the private copy when present, else the shared value |
| Components.CopyOnWriteIsolation | mmolib/src/component.rs:104-122 | after a write through one reference, a second reference to the same component still reads the original value, by `deref` and by the intended read alike |
| Components.DerefMissesOwnWrite | mmolib/src/component.rs:104-109 | after `*r = v`, `deref` on the same reference still returns the original value |
| Components.ReadCurrentSeesOwnWrite | mmolib/src/component.rs:104-122 | with the intended read, a reference sees its own write |
| Components.ClearDiscardsWrite | mmolib/src/component.rs:100-122 | after a write and `clear_changed_data`, the next `deref_mut` re-clones the original value |
| Chunks.NewRaw | mmolib/src/chunk.rs:36-41 | `new_raw(n).id() == n` |
| Chunks.Id | mmolib/src/chunk.rs:39-41 | `id()` returns the wrapped number; `Chunks.NewRaw` states the round trip |
| Chunks.ChunkIdFromPosition | mmolib/src/chunk.rs:45-50 | the id is `(x/32)*2^32 + y/32`: the OR never overlaps the shifted part |
| Chunks.ConvertToChunkRelativePosition | mmolib/src/chunk.rs:51-56 | each coordinate is masked to its value mod 32, which is below 32 |
| Chunks.PositionOfChunk | mmolib/src/chunk.rs:57-62 | the result is the upper and lower halves of the id; the `try_into().unwrap()` cannot fail |
| Chunks.PositionOfChunkFromPosition | mmolib/src/chunk.rs:45-62 | unpacking a packed position gives `(x/32, y/32)` |
| Chunks.PositionOfNewRaw | mmolib/src/chunk.rs:57-62 | for every raw id, `position_of_chunk` gives `(n >> 32, n mod 2^32)`, from which `n` is recovered |
| Chunks.Reconstruction | mmolib/src/chunk.rs:45-56 | on each axis, `32 * chunk coordinate + relative offset == coordinate` |
| Chunks.ChunkIdInjective | mmolib/src/chunk.rs:45-50 | two positions get the same chunk id iff they have the same chunk coordinates |
| Chunks.TestChunks | mmolib/src/chunk.rs:70-75 | `(32, 64)` is in chunk `(1, 2)` at offset `(0, 0)` |
| Chunks.ChunkIdDisplayInjective | mmolib/src/chunk.rs:77-81 | two chunk ids printed as the same `chunk<x,y>` are equal |
| Chunks.PairDisplayInjective | mmolib/src/chunk.rs:77-81 | `chunk<x,y>` determines both `x` and `y` |
| Chunks.ChunkIdDisplay | mmolib/src/chunk.rs:77-81 | renders `chunk<x,y>` from the id's two halves; `Chunks.ChunkIdDisplayInjective` states that distinct ids print differently |
| Chunks.NewFromArray | mmolib/src/chunk.rs:28-30 | wraps the block array; `Chunks.RelativePositionIndexesChunk` states that its entries are found again |
| Chunks.RelativePositionIndexesChunk | mmolib/src/chunk.rs:28-30 | the relative offset of any position indexes a chunk built by `new_from_array` and finds that array's entry |
| Raws.NewRaw | mmolib/src/raws.rs:115-133 | `path()` and `dat()` return what `Raw::new` stored |
| Raws.RawPath | mmolib/src/raws.rs:131-133 | `path()`; `Raws.NewRaw` states that it returns what `Raw::new` stored |
| Raws.RawDat | mmolib/src/raws.rs:121-123 | `dat()`; `Raws.NewRaw` states that it returns what `Raw::new` stored |
| Raws.TrieInsert | mmolib/src/raws.rs:53-69 | the recursive `insert` on trie values; its effect is stated by `Raws.InsertLeaf`, `Raws.InsertDeep`, `Raws.SearchAfterInsert` and `Raws.SearchOtherUnaffected` |
| Raws.TrieSearch | mmolib/src/raws.rs:84-97 | the recursive `search` on trie values; its results are stated by `Raws.SearchEmpty`, `Raws.SearchMissingSubtree` and `Raws.SearchAfterInsert` |
| Raws.TrieSearchAll | mmolib/src/raws.rs:70-83 | the recursive `search_for_all` on trie values; its results are stated by `Raws.SearchAllFallback` and `Raws.SearchAllAfterInsert` |
| Raws.RawTree.Empty | mmolib/src/raws.rs:14-19 | a new empty tree has no leaves and no subtrees |
| Raws.RawTree.Insert | mmolib/src/raws.rs:53-69 | the tree after `insert` is the trie insertion of the raw at the path into the old tree |
| Raws.RawTree.Search | mmolib/src/raws.rs:84-97 | `search` returns the trie lookup of the path |
| Raws.RawTree.SearchForAll | mmolib/src/raws.rs:70-83 | `search_for_all` returns, as a multiset, the values of the leaf map the trie listing selects |
| Raws.CollectValues | mmolib/src/raws.rs:72 | `values().collect()` yields each value of the map once per key |
| Raws.ValuesOfFacts | mmolib/src/raws.rs:72 | the collected multiset has one entry per key and holds exactly the map's values |
| Raws.InsertLeaf | mmolib/src/raws.rs:53-55 | a one-segment insert sets `level[k]` (replacing any earlier leaf) and leaves `subtrees` unchanged |
| Raws.InsertDeep | mmolib/src/raws.rs:56-68 | a longer insert keeps this node's `level` and other subtrees, creates the first segment's subtree empty if missing, and recurses into it |
| Raws.SearchEmpty | mmolib/src/raws.rs:84-97 | nothing is found in an empty tree |
| Raws.SearchAfterInsert | mmolib/src/raws.rs:53-97 | after `insert(r, p)`, `search(p)` returns `r` |
| Raws.SearchOtherUnaffected | mmolib/src/raws.rs:53-97 | `insert(r, p)` leaves `search(q)` unchanged for every non-empty `q != p` |
| Raws.LeafAndSubtreeCoexist | mmolib/src/raws.rs:53-97 | a leaf at `[a]` and a leaf at `[a, b]` are both found after both inserts |
| Raws.SearchMissingSubtree | mmolib/src/raws.rs:84-93 | `search` returns None when an inner segment has no subtree |
| Raws.SearchAllFallback | mmolib/src/raws.rs:70-80 | on the empty path, or when the next segment has no subtree, the listing is the current node's leaves and not empty |
| Raws.SearchAllAfterInsert | mmolib/src/raws.rs:53-83 | after inserting under `p + [k]`, listing `p` includes the raw under `k` |
| Raws.SplitPath | mmolib/src/raws.rs:100-106 | the loop pushing each `/`-separated piece builds exactly `Split(s)` |
| Raws.Split | mmolib/src/raws.rs:100-106 | splitting always yields at least one segment |
| Raws.SplitNoSlash | mmolib/src/raws.rs:100-106 | no segment contains `/` |
| Raws.JoinSplit | mmolib/src/raws.rs:100-106 | joining the segments with `/` gives the string back |
| Raws.SplitJoin | mmolib/src/raws.rs:100-106 | splitting a `/`-join of slash-free segments gives the segments back |
| ChangeTrackers.NewAdd | mmoserv/src/change_tracker.rs:18-26 | the key is `(e, get_type_id::<T>())` and the change is `Add` carrying `Component::new(v)`, whose type matches the key |
| ChangeTrackers.NewRemove | mmoserv/src/change_tracker.rs:27-35 | the key is exactly `(e, t)` and the change is `Remove` |
| ChangeTrackers.NewChange | mmoserv/src/change_tracker.rs:36-44 | as `new_add`, with a `Change` carrying `Component::new(v)` |
| ChangeTrackers.GetEntityIdOf | mmoserv/src/change_tracker.rs:45-47 | the entity of the change; `ChangeTrackers.NewAdd`, `ChangeTrackers.NewRemove` and `ChangeTrackers.NewChange` state its value |
| ChangeTrackers.GetComponentType | mmoserv/src/change_tracker.rs:48-50 | the component type of the change; stated by the three constructors' contracts |
| ChangeTrackers.GetChangeType | mmoserv/src/change_tracker.rs:51-53 | the kind of change; stated by the three constructors' contracts |
| ChangeTrackers.GetKey | mmoserv/src/change_tracker.rs:54-61 | the instance id of the change; `ChangeTrackers.KeyOfAccessors` relates it to the other two accessors |
| ChangeTrackers.KeyOfAccessors | mmoserv/src/change_tracker.rs:45-61 | `get_key` is the pair of `get_entity_id` and `get_component_type` |
| ChangeTrackers.AddAndChangeShareKey | mmoserv/src/change_tracker.rs:18-44 | an add, a change and a remove of the same component of the same entity share one key |
| ChangeTrackers.CarriedComponentMatchesKey | mmoserv/src/change_tracker.rs:18-44 | for `Add` and `Change`, the type part of the key is the carried component's `get_type_id()` |
| Queries.Query.constructor | mmoserv/src/query.rs:22-27 | a new query has no entries |
| Queries.Query.AddUnion | mmoserv/src/query.rs:38-41 | exactly one `Union(get_type_id::<T>())` is appended; earlier entries are unchanged |
| Queries.Query.AddOption | mmoserv/src/query.rs:42-45 | exactly one `Option(get_type_id::<T>())` is appended; earlier entries are unchanged |
| Queries.Query.Hash | mmoserv/src/query.rs:28-37 | the loop computes the left fold from 1337 where a union XORs in `x + 1` and an option shifts left by `x` |
| Queries.UnionTerm | mmoserv/src/query.rs:32 | `x + 1` wrapping at 2^64; `Queries.UnionOfMaxWraps` states the wrap |
| Queries.Step | mmoserv/src/query.rs:30-35 | one entry's effect on the hash; `Queries.StepBelow` states that it stays a `u64` |
| Queries.HashOf | mmoserv/src/query.rs:28-37 | the left fold that specifies `Queries.Query.Hash`; its properties are the `Queries.HashOf…` and `Queries.Union…` lemmas below |
| Queries.Query.Execute | mmoserv/src/query.rs:46-52 | the result holds no entities, whatever the entries |
| Queries.IntoIter | mmoserv/src/query.rs:70-76 | iteration yields the result's entities in stored order |
| Queries.HashOfEmpty | mmoserv/src/query.rs:29 | an entry-less query hashes to 1337 |
| Queries.HashOfSnoc | mmoserv/src/query.rs:30-35 | appending an entry applies one more step to the previous hash |
| Queries.UnionHashIsXor | mmoserv/src/query.rs:30-33 | a union-only query hashes to 1337 XOR all its union terms |
| Queries.XorWithPermutation | mmoserv/src/query.rs:30-33 | the XOR of per-entry terms depends only on the multiset of entries |
| Queries.UnionHashOrderFree | mmoserv/src/query.rs:30-33 | for union-only queries, reordering the entries does not change the hash |
| Queries.DoubleUnionCancels | mmoserv/src/query.rs:32 | adding the same union twice in a row leaves the hash unchanged |
| Queries.OptionOrderMatters | mmoserv/src/query.rs:30-34 | once an option is involved, order matters: after any prefix, a union of type 0 then an option of type 1 gives an even hash, and the reverse order an odd one |
| Queries.UnionOptionParity | mmoserv/src/query.rs:32-33 | shifting after the union leaves the low bit 0, and XOR-ing `0 + 1` after the shift sets it to 1 |
| Queries.HashOfSnoc2 | mmoserv/src/query.rs:30-35 | appending two entries applies their two steps in order |
| Queries.StepBelow | mmoserv/src/query.rs:32-33 | each step yields a `u64` |
| Queries.HashBelow | mmoserv/src/query.rs:28-37 | the hash is always a `u64` |
| Queries.XorAssoc | mmoserv/src/query.rs:32 | helper algebra for the `^` of this line: `^` on words is associative |
| Queries.XorComm | mmoserv/src/query.rs:32 | helper algebra for the `^` of this line: `^` on words is commutative |
| Queries.XorSelf | mmoserv/src/query.rs:32 | helper algebra for the `^` of this line: `a ^ a == 0` |
| Queries.XorZero | mmoserv/src/query.rs:32 | helper algebra for the `^` of this line: `a ^ 0 == a` for every `a` that fits the width |
| Queries.XorBelow | mmoserv/src/query.rs:32 | helper algebra for the `^` of this line: the XOR of `k`-bit words fits in `k` bits |
| Queries.XorLowBit | mmoserv/src/query.rs:32 | helper algebra for the `^` of this line: the low bit of `a ^ b` is the parity of the low bits of `a` and `b` |
| Queries.BitsOfFromBits | mmoserv/src/query.rs:32 | helper algebra for the `^` of this line: reading a bit string as a number and taking its bits back gives the string |
| Queries.FromBitsOfBits | mmoserv/src/query.rs:32 | helper algebra for the `^` of this line: the low `k` bits of a number below 2^k spell that number |
| Queries.XorSwap | mmoserv/src/query.rs:30-33 | the last two operands of a XOR chain can be swapped |
| Queries.XorWithRemove | mmoserv/src/query.rs:30-33 | the XOR over the entries is the XOR over all but one of them, XOR that one's term |
| Queries.ShiftIsEven | mmoserv/src/query.rs:33 | a shift by one or more bits leaves the low bit 0 |
| Queries.StepOfZeroUnion | mmoserv/src/query.rs:32 | a union whose `x + 1` wraps to 0 leaves the hash as it was |
| Queries.StepOfWrappedOption | mmoserv/src/query.rs:33 | an option whose number is a multiple of 64 leaves the hash as it was, because the shift amount is taken modulo 64 |
| Queries.UnionOfMaxWraps | mmoserv/src/query.rs:32 | for type number `u64::MAX`, `x + 1` wraps to 0, so its union leaves the hash as it was |
| Queries.OptionShiftWraps | mmoserv/src/query.rs:33 | after any prefix, an option whose number is a multiple of 64 leaves the hash as it was |
| RedisStore.Apply | mmoserv/src/server_world.rs:109-145 | `SADD`/`SREM` fail exactly on a key holding a string; `SET`/`DEL` always succeed; the new value at the key: the string for `SET`, the old set plus the member for `SADD`, the old set minus the member for `SREM` (the key removed when that is empty), no key for `DEL`; no other key changes and no other key appears |
| RedisStore.Get | mmoserv/src/server_world.rs:176-181 | a `String` read succeeds exactly when the key holds a string, and returns that string |
| RedisStore.RunPipeline | mmoserv/src/server_world.rs:84-88 | the commands applied in order, each failure skipped; `RedisStore.RunPipelineSnoc` and `RedisStore.RunPipelineAppend` state how it composes |
| RedisStore.SRemBoth | mmoserv/src/server_world.rs:137-145 | two `SREM`s, the second only after the first succeeded: success iff neither key holds a string; the state after each failure; each set's new members (the key removed when empty); no other key changes |
| RedisStore.SInter | mmoserv/src/server_world.rs:153-161 | fails on no keys or on a key holding a string; otherwise a member is in the result iff it is in every key's set |
| RedisStore.RunPipelineAppend | mmoserv/src/server_world.rs:84-88 | sending two pipelines in turn is sending their concatenation; it succeeds iff both do |
| RedisStore.SetAlwaysSucceeds | mmoserv/src/server_world.rs:109 | a lone `SET` succeeds and overwrites the key |
| RedisStore.RunSetThenTwoAdds | mmoserv/src/server_world.rs:109-114 | a `SET` followed by two `SADD`s on other keys holding no string all succeed with the stated effect |
| RedisStore.SetSurvivesTwoAdds | mmoserv/src/server_world.rs:109-114 | after the `SET` and the two `SADD`s on other keys, the data key holds its string whether or not the `SADD`s fail |
| RedisStore.TwoAddsMembers | mmoserv/src/server_world.rs:110-114 | two successful `SADD`s: each set gains its member, and both land in one set when the keys coincide |
| ServerWorlds.ConnectionString | mmoserv/src/server_world.rs:13-15 | a `redis://` URL ending in `/`; `ServerWorlds.ConnectionStringInjective` states that host and port can be read back |
| ServerWorlds.ConnectionStringInjective | mmoserv/src/server_world.rs:13-15 | `redis://{h}:{p}/` strings are equal iff host and port are |
| ServerWorlds.Decode | mmoserv/src/server_world.rs:182 | `from_str::<T>` yields only values of type `T` |
| ServerWorlds.DataKey | mmoserv/src/server_world.rs:95-100 | every data key starts with `{w}:`; `ServerWorlds.DataKeyInjective` states that it names one (entity, type) pair |
| ServerWorlds.IndexKey | mmoserv/src/server_world.rs:101-106 | the `{w}:{n}` shape of both index keys starts with `{w}:`; `ServerWorlds.IndexKeyInjective` states that it determines `n` |
| ServerWorlds.EntityIndexKey | mmoserv/src/server_world.rs:101 | the entity index key starts with `{w}:` |
| ServerWorlds.TypeIndexKey | mmoserv/src/server_world.rs:102-106 | the type index key starts with `{w}:` |
| ServerWorlds.DataKeyNotIndexKey | mmoserv/src/server_world.rs:95-106 | a data key `{w}:{e}:{t}` never equals an index key `{w}:{n}` of the same world |
| ServerWorlds.DataKeyInjective | mmoserv/src/server_world.rs:95-100 | within a world, data keys are equal iff entity and type are |
| ServerWorlds.IndexKeyInjective | mmoserv/src/server_world.rs:101-106 | index keys of a world are equal iff their numbers are |
| ServerWorlds.EntityAndTypeIndexCoincide | mmoserv/src/server_world.rs:101-106 | the entity index of `e` and the type index of `t` are the same key iff `e`'s number equals `t`'s number |
| ServerWorlds.KeyDeterminesWorld | mmoserv/src/server_world.rs:95-106 | for world names without `:`, a key determines its world and its remainder |
| ServerWorlds.WriteCmds | mmoserv/src/server_world.rs:89-116 | the buffered commands are exactly `SET {w}:{e}:{t} enc(v)`, `SADD {w}:{e} t`, `SADD {w}:{t} e`, in that order, and there are none iff encoding fails |
| ServerWorlds.ServerWorld.constructor | mmoserv/src/server_world.rs:70-82 | a new world has an empty pipeline and an empty cache over the given store |
| ServerWorlds.ServerWorld.WriteComponent | mmoserv/src/server_world.rs:89-116 | appends the three commands to the pipeline (nothing, with `SerdeError`, when encoding fails); store and cache unchanged |
| ServerWorlds.ServerWorld.WriteAllChanges | mmoserv/src/server_world.rs:84-88 | the store becomes the pipeline run over it; an error iff some command failed; the pipeline is not cleared |
| ServerWorlds.GetComponentFrom | mmoserv/src/server_world.rs:166-184 | `RedisError` iff the data key holds no string; when it holds one, success iff `from_str::<T>` decodes it, with the decoded value (of type `T`), and `SerdeError` otherwise; no other error |
| ServerWorlds.ServerWorld.GetComponent | mmoserv/src/server_world.rs:166-184 | returns `get_component`'s outcome on the current store |
| ServerWorlds.WriteThenRead | mmoserv/src/server_world.rs:89-184 | after a pipeline ending in the writes of `v`, `get_component` returns `v` when the codec round-trips |
| ServerWorlds.LastWriteWins | mmoserv/src/server_world.rs:89-184 | of two buffered writes of one component, the later one is read back |
| ServerWorlds.DeleteSteps | mmoserv/src/server_world.rs:117-147 | `DEL` data key, `SREM` type from entity index, `SREM` entity from type index, stopping at the first error: the data key is always gone; success iff neither index holds a string; every error is `RedisError`; after a first failure only the `DEL` has happened, after a second the type index is as before; each index set that was updated holds its old members minus the removed ones (both removals in one set when the keys coincide), the key removed when empty; other keys are unchanged and no key appears |
| ServerWorlds.DeleteKeepsIndexMember | mmoserv/src/server_world.rs:117-147 | an index key other than the deleted entity's keeps every member, except the deleted entity in the deleted type's index |
| ServerWorlds.DeleteKeepsOtherEntity | mmoserv/src/server_world.rs:117-147 | without an index collision, another entity's data key and both directions of its index membership survive a delete |
| ServerWorlds.DeleteTwiceKeepsOtherEntity | mmoserv/src/server_world.rs:117-147 | the same across two deletes |
| ServerWorlds.ServerWorld.DeleteComponent | mmoserv/src/server_world.rs:117-147 | the new store and the result are exactly those of `ServerWorlds.DeleteSteps`, command by command; pipeline and cache unchanged |
| ServerWorlds.TypeIndexKeys | mmoserv/src/server_world.rs:154-158 | one `{w}:{t}` key per requested type, in order |
| ServerWorlds.EntitiesWith | mmoserv/src/server_world.rs:148-165 | the lookup fails with `RedisError` exactly when the `SINTER` fails |
| ServerWorlds.EntitiesWithIsIntersection | mmoserv/src/server_world.rs:148-165 | over canonical indexes, the entities found are exactly those listed in every requested type index |
| ServerWorlds.EntityInIntersection | mmoserv/src/server_world.rs:148-165 | the same, for one entity |
| ServerWorlds.EntitiesWithPanics | mmoserv/src/server_world.rs:163 | a non-numeric member makes the `unwrap` panic |
| ServerWorlds.ServerWorld.GetEntitiesWithComponentTypeIds | mmoserv/src/server_world.rs:148-165 | returns the intersection lookup on the current store |
| ServerWorlds.WriteEffects | mmoserv/src/server_world.rs:101-114 | flushing one write stores the serialization and adds one member to each index; both land in one set when the index keys coincide |
| ServerWorlds.IndexCollisionReportsTypeAsEntity | mmoserv/src/server_world.rs:101-106 | after writing a component of type `t` for entity `e`, the entities "having the type numbered like `e`" include one numbered like `t` |
| ServerWorlds.DeleteDropsOtherEntity | mmoserv/src/server_world.rs:117-145 | with an index collision (a type numbered like entity `a`, held by entity `b`), deleting `a`'s component of the type numbered like `b` drops `b` from that type's index while `b`'s data stays |
| ServerWorlds.Lookup | mmoserv/src/server_world.rs:185-215 | hit: no store read; the cached value when its type is `T`, else `ComponentNotFound`. Miss: a successful read is cached as `Component::new(value)` and returned; any failure gives `ComponentNotFound` and leaves the cache unchanged |
| ServerWorlds.ServerWorld.GetComponentRef | mmoserv/src/server_world.rs:185-215 | the cache and the outcome are those of the lookup; success hands out a fresh reference over the value with no private copy; the store and pipeline are unchanged |
| ServerWorlds.LookupKeepsCacheTyped | mmoserv/src/server_world.rs:203-206 | every cached component stays under its own instance id |
| ServerWorlds.MismatchNeedsTypeIdCollision | mmoserv/src/server_world.rs:192-197 | in a well-typed cache, a wrong-type hit needs two component types whose names hash alike |
| ServerWorlds.CacheHitIgnoresStore | mmoserv/src/server_world.rs:189-198 | a cache hit gives the same outcome whatever the store holds |
| ServerWorlds.StaleAfterCachedRead | mmoserv/src/server_world.rs:185-215 | once read, a component's later flushed writes are invisible to `get_component_ref` |
| ServerWorlds.DestroyAsWritten | mmoserv/src/server_world.rs:216-226 | only the literal key `test:*` is removed; every other key keeps its value and no key appears |
| ServerWorlds.DestroyKeepsData | mmoserv/src/server_world.rs:216-226 | every component's data key survives `destroy_world` |
| ServerWorlds.ServerWorld.DestroyWorld | mmoserv/src/server_world.rs:216-226 | the store after `destroy_world` is the as-written delete; it reports success |
| ServerWorlds.ResurrectionAsWritten | mmoserv/src/server_world.rs:84-88 | on one world object: write, flush, delete, flush again: the component is gone after the delete and is back after the second flush |
| ServerWorlds.ServerWorld.WriteAllChangesAndClear | mmoserv/src/server_world.rs:84-88 | the flush as intended: the same store update, then an empty pipeline |
| ServerWorlds.NoResurrectionWhenCleared | mmoserv/src/server_world.rs:84-88 | the same steps on one world object with the clearing flush: the component is gone after the delete and stays gone after the second flush |
| ServerWorlds.DestroyScoped | mmoserv/src/server_world.rs:216-221 | the intended delete removes exactly the keys starting with `{w}:` |
| ServerWorlds.DestroyScopedRemovesOnlyTheWorld | mmoserv/src/server_world.rs:216-221 | the scoped delete removes the world's components and keeps another world's |
| ServerWorlds.ServerWorld.DestroyWorldScoped | mmoserv/src/server_world.rs:216-221 | the store after the intended destroy is the scoped delete |

## Left out

- Connection setup and transport are left out: `ServerWorld::new`, `Client::open` and the multiplexed connection. Store commands never fail for network reasons, and the error carries no detail. The `#[tokio::test]` functions are left out too; they talk to a remote host.
- Async execution and the `RwLock` guards are left out, including the read guard held across an await in `get_component_ref`. Every operation runs sequentially on one world.
- `serde_json` and `serde_cbor` are parameters (`Codec`), not modelled. This covers `Component::serialize`, the captured serialization function, `Chunk::new` and `Raw::get`. A decode-after-encode round trip is assumed only in the `requires` of the lemmas that need it.
- `hashing::string_hash` and `std::any::type_name` are not part of this model. They are the parameters in `Naming`.
- `EntityId::new` is not modelled; it draws a random number.
- `RawTree::new` is not modelled; it reads a directory and panics on malformed files.
- `distance_between_position` and `LocationAttributes` are not modelled; they are floating point.
- `ServerWorldRef::query` is a `todo!()` and is not modelled.
- `Entity::get_component` is not modelled; it unwraps `get_component_ref`.
- The unused fields `tick`, `changes`, `cached_queries` and `raws`, and the unused `Change` struct, are not modelled.
- Raws.RawTree.Insert: the subtrees of a `RawTree` object are owned `Trie` values rather than `RawTree` objects. Rust ownership means no subtree is ever shared, so one object per node stands for the same behaviour. The recursive in-place update of child objects is therefore not modelled node by node.
- Queries.Query.Hash: a debug build panics on the `x + 1` overflow at `u64::MAX` and on shifts of 64 or more. This is not modelled; the hash is the release build's, with `x + 1` wrapping at 2^64 and the shift amount taken modulo 64.
- ServerWorlds.DestroyAsWritten: the `KEYS {w}:*` listing is not modelled. Its result is discarded and it changes nothing; glob matching is not modelled either.
- ServerWorlds.ServerWorld.DestroyWorld: `destroy_world` consumes the world. The model keeps the object, and nothing uses it afterwards.
- ServerWorlds.EntitiesWith: a panic is an outcome (`Panicked`) rather than an abort.
- Raws.RawTree.Insert: on an empty path the source indexes `path_remaining[0]` and panics (raws.rs:59). This panic is not modelled: `Insert` and `Raws.TrieInsert` require a non-empty path instead.
- Raws.RawTree.Search: on an empty path the source indexes `path_remaining[0]` and panics (raws.rs:88). This panic is not modelled: `Search` and `Raws.TrieSearch` require a non-empty path instead.
- The `println!` debug output in `RawTree::new`, `search_for_all` and `search` (raws.rs:21, 42, 74, 88) is not modelled. It does not affect any result.

## Findings

| source | as written | input that shows it | evidently intended | confidence | as-written member | corrected member |
|---|---|---|---|---|---|---|
| mmolib/src/component.rs:104-109 | `deref` reads the shared value and ignores the private copy that `deref_mut` filled | `get_ref` on a component holding `a`, then `*r = b`, then `*r` reads `a` | a reference reads its own private copy when it has one | high (not executed) | Components.DerefMissesOwnWrite | Components.ReadCurrentSeesOwnWrite |
| mmoserv/src/server_world.rs:84-88 | `write_all_changes` sends the pipeline but never clears it | `write_component(e, v)`, flush, `delete_component(e)`, flush: `get_component` returns `v` again | the buffer is emptied once sent, so a second flush sends nothing | high (not executed) | ServerWorlds.ResurrectionAsWritten | ServerWorlds.NoResurrectionWhenCleared |
| mmoserv/src/server_world.rs:216-226 | `destroy_world` discards the `KEYS {w}:*` listing and deletes only the literal key `test:*` | a world holding a component under `{w}:{e}:{t}`: the key is still there after `destroy_world` | every key with the prefix `{w}:` is deleted, and other worlds' keys are kept | high (not executed) | ServerWorlds.DestroyKeepsData | ServerWorlds.DestroyScopedRemovesOnlyTheWorld |
