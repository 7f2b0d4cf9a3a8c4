/**
 The JSON patches that add pools to a StorageCluster
 (packages/ocs/storage-pool/CreateStoragePool.tsx).
 */
module StoragePoolPatches {
  import opened Options
  import opened Strings
  import opened JsonPatch

  // ----- the metadata pool of erasure-coded block pools -----

  const METADATA_POOL := "replicated-metadata-pool"

  function Spec(sc: Json): Option<Json> {
    Member(Some(sc), "spec")
  }

  function ManagedResources(sc: Json): Option<Json> {
    Member(Spec(sc), "managedResources")
  }

  function BlockPools(sc: Json): Option<Json> {
    Member(ManagedResources(sc), "cephBlockPools")
  }

  function PoolRef(sc: Json): Option<Json> {
    Member(BlockPools(sc), "erasureCodedMetadataPool")
  }

  predicate NullOrObject(v: Option<Json>) {
    IsNull(v) || v.value.Obj?
  }

  /** The types the API server guarantees along the path, where the fields are set. */
  predicate TypedCluster(sc: Json) {
    && sc.Obj? && NullOrObject(Spec(sc))
    && NullOrObject(ManagedResources(sc)) && NullOrObject(BlockPools(sc))
    && (IsNull(PoolRef(sc)) || PoolRef(sc).value.Str?)
  }

  /** No patch when the reference is set; otherwise one patch at the first missing level. */
  function EnsureMetadataPoolRef(sc: Json): seq<Patch> {
    if Truthy(PoolRef(sc)) then []
    else if IsNull(ManagedResources(sc)) then
      [Add("/spec/managedResources",
           Obj(map["cephBlockPools" := Obj(map["erasureCodedMetadataPool" := Str(METADATA_POOL)])]))]
    else if IsNull(BlockPools(sc)) then
      [Add("/spec/managedResources/cephBlockPools", Obj(map["erasureCodedMetadataPool" := Str(METADATA_POOL)]))]
    else
      [Add("/spec/managedResources/cephBlockPools/erasureCodedMetadataPool", Str(METADATA_POOL))]
  }

  /** The fields of an object, none if it is missing or null. */
  function Fields(v: Option<Json>): map<string, Json> {
    if v.Some? && v.value.Obj? then v.value.members else map[]
  }

  /** The value with one member set and the other members as they were. */
  function Set(v: Option<Json>, key: string, member: Json): Json {
    Obj(Fields(v)[key := member])
  }

  /** The cluster with the reference set and every other field, on every level, as it was. */
  function WithPoolRef(sc: Json): Json {
    Set(Some(sc), "spec",
        Set(Spec(sc), "managedResources",
            Set(ManagedResources(sc), "cephBlockPools",
                Set(BlockPools(sc), "erasureCodedMetadataPool", Str(METADATA_POOL)))))
  }

  lemma ResourcesPath()
    ensures "/" + "spec" + "/" + "managedResources" == "/spec/managedResources"
  {
  }

  lemma BlockPoolsPath()
    ensures "/spec/managedResources" + "/" + "cephBlockPools" == "/spec/managedResources/cephBlockPools"
  {
  }

  lemma PoolRefPath()
    ensures "/spec/managedResources/cephBlockPools" + "/" + "erasureCodedMetadataPool"
         == "/spec/managedResources/cephBlockPools/erasureCodedMetadataPool"
  {
  }

  lemma ClusterPointers()
    ensures Pointer(["spec", "managedResources"]) == "/spec/managedResources"
    ensures Pointer(["spec", "managedResources", "cephBlockPools"]) == "/spec/managedResources/cephBlockPools"
    ensures Pointer(["spec", "managedResources", "cephBlockPools", "erasureCodedMetadataPool"])
         == "/spec/managedResources/cephBlockPools/erasureCodedMetadataPool"
  {
    PointerOf4("spec", "managedResources", "cephBlockPools", "erasureCodedMetadataPool");
    ResourcesPath();
    BlockPoolsPath();
    PoolRefPath();
  }

  lemma ClusterKeysPlain()
    ensures Plain("spec") && Plain("managedResources") && Plain("cephBlockPools") && Plain("erasureCodedMetadataPool")
    ensures !IsIndex("spec") && !IsIndex("managedResources") && !IsIndex("cephBlockPools")
  {
    assert !IsDigit("spec"[0]) && !IsDigit("managedResources"[0]) && !IsDigit("cephBlockPools"[0]);
  }

  lemma AlongOne(doc: Json, a: string, rest: seq<string>, value: Json)
    ensures At(doc, [a] + rest) == if Member(Some(doc), a).Some? then At(doc.members[a], rest) else None
    ensures At(doc, [a] + rest).Some? ==>
              With(doc, [a] + rest, value) == Set(Some(doc), a, With(doc.members[a], rest, value))
  {
    assert ([a] + rest)[1..] == rest;
  }

  lemma AlongTwo(doc: Json, a: string, b: string, value: Json)
    ensures At(doc, [a]) == Member(Some(doc), a)
    ensures At(doc, [a, b]) == Member(Member(Some(doc), a), b)
    ensures At(doc, [a]).Some? ==> With(doc, [a], value) == Set(Some(doc), a, value)
    ensures At(doc, [a, b]).Some? ==> With(doc, [a, b], value) == Set(Some(doc), a, Set(At(doc, [a]), b, value))
  {
    assert [a] == [a] + [] && [b] == [b] + [] && [a, b] == [a] + [b];
    AlongOne(doc, a, [], value);
    AlongOne(doc, a, [b], value);
    if Member(Some(doc), a).Some? {
      AlongOne(doc.members[a], b, [], value);
    }
  }

  /** Reading along three members, and replacing along them, is reading and setting one inside
      the other. */
  lemma AlongThree(doc: Json, a: string, b: string, c: string, value: Json)
    ensures At(doc, [a, b, c]) == Member(Member(Member(Some(doc), a), b), c)
    ensures At(doc, [a, b, c]).Some? ==>
              With(doc, [a, b, c], value)
              == Set(Some(doc), a, Set(Member(Some(doc), a), b, Set(Member(Member(Some(doc), a), b), c, value)))
  {
    assert [a, b, c] == [a] + [b, c];
    AlongOne(doc, a, [b, c], value);
    if Member(Some(doc), a).Some? {
      AlongTwo(doc.members[a], b, c, value);
    }
  }

  /** The patches' paths name the members they spell out. */
  lemma ClusterPatches(sc: Json, value: Json)
    ensures Apply(sc, Add("/spec/managedResources", value)) == AddAt(sc, ["spec"] + ["managedResources"], value)
    ensures Apply(sc, Add("/spec/managedResources/cephBlockPools", value))
         == AddAt(sc, ["spec", "managedResources"] + ["cephBlockPools"], value)
    ensures Apply(sc, Add("/spec/managedResources/cephBlockPools/erasureCodedMetadataPool", value))
         == AddAt(sc, ["spec", "managedResources", "cephBlockPools"] + ["erasureCodedMetadataPool"], value)
  {
    ClusterPointers();
    ClusterKeysPlain();
    assert ["spec"] + ["managedResources"] == ["spec", "managedResources"];
    assert ["spec", "managedResources"] + ["cephBlockPools"] == ["spec", "managedResources", "cephBlockPools"];
    assert ["spec", "managedResources", "cephBlockPools"] + ["erasureCodedMetadataPool"]
        == ["spec", "managedResources", "cephBlockPools", "erasureCodedMetadataPool"];
    ApplyPlain(sc, ["spec", "managedResources"], value);
    ApplyPlain(sc, ["spec", "managedResources", "cephBlockPools"], value);
    ApplyPlain(sc, ["spec", "managedResources", "cephBlockPools", "erasureCodedMetadataPool"], value);
  }

  lemma SetResources(sc: Json, value: Json)
    requires NullOrObject(Spec(sc))
    ensures AddAt(sc, ["spec"] + ["managedResources"], value)
         == if IsNull(Spec(sc)) then Err(NoSuchLocation)
            else Ok(Set(Some(sc), "spec", Set(Spec(sc), "managedResources", value)))
  {
    AlongTwo(sc, "spec", "managedResources", Set(Spec(sc), "managedResources", value));
    if IsNull(Spec(sc)) {
      assert !IsIndex("spec") by { ClusterKeysPlain(); }
      AddMemberNowhere(sc, ["spec"], "managedResources", value);
    } else {
      AddMember(sc, ["spec"], "managedResources", value);
    }
  }

  lemma SetBlockPools(sc: Json, value: Json)
    requires !IsNull(ManagedResources(sc)) && ManagedResources(sc).value.Obj?
    ensures AddAt(sc, ["spec", "managedResources"] + ["cephBlockPools"], value)
         == Ok(Set(Some(sc), "spec",
                   Set(Spec(sc), "managedResources", Set(ManagedResources(sc), "cephBlockPools", value))))
  {
    AlongTwo(sc, "spec", "managedResources", Set(ManagedResources(sc), "cephBlockPools", value));
    AddMember(sc, ["spec", "managedResources"], "cephBlockPools", value);
  }

  lemma SetPoolRef(sc: Json, value: Json)
    requires !IsNull(BlockPools(sc)) && BlockPools(sc).value.Obj?
    ensures AddAt(sc, ["spec", "managedResources", "cephBlockPools"] + ["erasureCodedMetadataPool"], value)
         == Ok(Set(Some(sc), "spec",
                   Set(Spec(sc), "managedResources",
                       Set(ManagedResources(sc), "cephBlockPools",
                           Set(BlockPools(sc), "erasureCodedMetadataPool", value)))))
  {
    var keys := ["spec", "managedResources", "cephBlockPools"];
    AlongThree(sc, "spec", "managedResources", "cephBlockPools",
               Set(BlockPools(sc), "erasureCodedMetadataPool", value));
    AddMember(sc, keys, "erasureCodedMetadataPool", value);
  }

  lemma ReferenceIsSet(sc: Json)
    ensures PoolRef(WithPoolRef(sc)) == Some(Str(METADATA_POOL))
    ensures EnsureMetadataPoolRef(WithPoolRef(sc)) == []
  {
    var pools := Set(BlockPools(sc), "erasureCodedMetadataPool", Str(METADATA_POOL));
    var resources := Set(ManagedResources(sc), "cephBlockPools", pools);
    var spec := Set(Spec(sc), "managedResources", resources);
    assert Spec(WithPoolRef(sc)) == Some(spec);
    assert ManagedResources(WithPoolRef(sc)) == Some(resources);
    assert BlockPools(WithPoolRef(sc)) == Some(pools);
    assert Truthy(Some(Str(METADATA_POOL))) by {
      assert |METADATA_POOL| > 0;
    }
  }

  lemma SetIn(v: Option<Json>, key: string, member: Json)
    requires IsNull(v)
    ensures Set(v, key, member) == Obj(map[key := member]) && IsNull(Member(v, key))
  {
  }

  /** The members the patch's path names, and the value it adds there. */
  function PatchKeys(sc: Json): seq<string> {
    if IsNull(ManagedResources(sc)) then ["spec"] + ["managedResources"]
    else if IsNull(BlockPools(sc)) then ["spec", "managedResources"] + ["cephBlockPools"]
    else ["spec", "managedResources", "cephBlockPools"] + ["erasureCodedMetadataPool"]
  }

  function PatchValue(sc: Json): Json {
    if IsNull(ManagedResources(sc)) then
      Obj(map["cephBlockPools" := Obj(map["erasureCodedMetadataPool" := Str(METADATA_POOL)])])
    else if IsNull(BlockPools(sc)) then Obj(map["erasureCodedMetadataPool" := Str(METADATA_POOL)])
    else Str(METADATA_POOL)
  }

  lemma EnsureAdds(sc: Json)
    requires !Truthy(PoolRef(sc))
    ensures ApplyAll(sc, EnsureMetadataPoolRef(sc)) == AddAt(sc, PatchKeys(sc), PatchValue(sc))
  {
    var patches := EnsureMetadataPoolRef(sc);
    assert patches[1..] == [];
    assert ApplyAll(sc, patches) == Apply(sc, patches[0]);
    ClusterPatches(sc, PatchValue(sc));
  }

  lemma AddsReference(sc: Json)
    requires TypedCluster(sc)
    ensures AddAt(sc, PatchKeys(sc), PatchValue(sc))
         == if IsNull(Spec(sc)) then Err(NoSuchLocation) else Ok(WithPoolRef(sc))
  {
    var reference := Str(METADATA_POOL);
    if IsNull(ManagedResources(sc)) {
      SetIn(ManagedResources(sc), "cephBlockPools", Set(BlockPools(sc), "erasureCodedMetadataPool", reference));
      SetIn(BlockPools(sc), "erasureCodedMetadataPool", reference);
      SetResources(sc, PatchValue(sc));
    } else if IsNull(BlockPools(sc)) {
      SetIn(BlockPools(sc), "erasureCodedMetadataPool", reference);
      SetBlockPools(sc, PatchValue(sc));
    } else {
      SetPoolRef(sc, PatchValue(sc));
    }
  }

  /** Unless the reference is set, the patch applies exactly if the cluster has a spec; it sets the
      reference and keeps every sibling field on every level. */
  lemma EnsureApplies(sc: Json)
    requires TypedCluster(sc) && !Truthy(PoolRef(sc))
    ensures ApplyAll(sc, EnsureMetadataPoolRef(sc))
         == if IsNull(Spec(sc)) then Err(NoSuchLocation) else Ok(WithPoolRef(sc))
  {
    EnsureAdds(sc);
    AddsReference(sc);
  }

  /** A non-empty reference is never overwritten, and a second call finds nothing to do. */
  lemma EnsureIsIdempotent(sc: Json)
    requires TypedCluster(sc)
    ensures Truthy(PoolRef(sc)) ==> ApplyAll(sc, EnsureMetadataPoolRef(sc)) == Ok(sc)
    ensures var after := ApplyAll(sc, EnsureMetadataPoolRef(sc));
            after.Ok? ==> Truthy(PoolRef(after.value)) && EnsureMetadataPoolRef(after.value) == []
  {
    if !Truthy(PoolRef(sc)) {
      EnsureApplies(sc);
      ReferenceIsSet(sc);
    }
  }

  // ----- a further data pool of the file system -----

  datatype Scheme = Scheme(k: int, m: int)

  /** The form's state; `replicaSize` after its conversion to a number. */
  datatype PoolState = PoolState(
    poolName: string, isCompressed: bool, erasureCoding: bool, scheme: Option<Scheme>, replicaSize: int)

  function DataPool(state: PoolState): Json {
    var common := map["name" := Str(state.poolName),
                      "compressionMode" := Str(if state.isCompressed then "aggressive" else "none")];
    if state.erasureCoding && state.scheme.Some? then
      Obj(common["erasureCoded" := Obj(map["dataChunks" := Num(state.scheme.value.k),
                                           "codingChunks" := Num(state.scheme.value.m)])])
    else
      Obj(common["replicated" := Obj(map["size" := Num(state.replicaSize)])])
  }

  function FileSystems(sc: Json): Option<Json> {
    Member(ManagedResources(sc), "cephFilesystems")
  }

  function DataPools(sc: Json): Option<Json> {
    Member(FileSystems(sc), "additionalDataPools")
  }

  predicate TypedFileSystems(sc: Json) {
    && sc.Obj? && NullOrObject(FileSystems(sc))
    && (IsNull(DataPools(sc)) || DataPools(sc).value.Arr?)
  }

  function FsPoolPatch(pool: Json, sc: Json): Patch {
    if Truthy(DataPools(sc)) then Add("/spec/managedResources/cephFilesystems/additionalDataPools/-", pool)
    else Add("/spec/managedResources/cephFilesystems/additionalDataPools", Arr([pool]))
  }

  function CreateFsPoolPatch(state: PoolState, sc: Json): Patch {
    FsPoolPatch(DataPool(state), sc)
  }

  function PoolList(sc: Json): seq<Json> {
    if DataPools(sc).Some? && DataPools(sc).value.Arr? then DataPools(sc).value.items else []
  }

  /** The cluster with this list of pools and every other field, on every level, as it was. */
  function WithDataPools(sc: Json, pools: seq<Json>): Json {
    Set(Some(sc), "spec",
        Set(Spec(sc), "managedResources",
            Set(ManagedResources(sc), "cephFilesystems",
                Set(FileSystems(sc), "additionalDataPools", Arr(pools)))))
  }

  lemma FileSystemsPath()
    ensures "/spec/managedResources" + "/" + "cephFilesystems" == "/spec/managedResources/cephFilesystems"
  {
  }

  lemma DataPoolsPath()
    ensures "/spec/managedResources/cephFilesystems" + "/" + "additionalDataPools"
         == "/spec/managedResources/cephFilesystems/additionalDataPools"
  {
  }

  lemma DataPoolsEndPath()
    ensures "/spec/managedResources/cephFilesystems/additionalDataPools" + "/-"
         == "/spec/managedResources/cephFilesystems/additionalDataPools/-"
  {
  }

  const FILE_SYSTEM_KEYS: seq<string> := ["spec", "managedResources", "cephFilesystems"]

  lemma DataPoolsPointer()
    ensures Pointer(FILE_SYSTEM_KEYS + ["additionalDataPools"])
         == "/spec/managedResources/cephFilesystems/additionalDataPools"
    ensures Pointer(FILE_SYSTEM_KEYS + ["additionalDataPools", "-"])
         == "/spec/managedResources/cephFilesystems/additionalDataPools/-"
  {
    DataPoolsEndPath();
    PointerOf4("spec", "managedResources", "cephFilesystems", "additionalDataPools");
    ResourcesPath();
    FileSystemsPath();
    DataPoolsPath();
    assert FILE_SYSTEM_KEYS + ["additionalDataPools"]
        == ["spec", "managedResources", "cephFilesystems", "additionalDataPools"];
    PointerConcat(FILE_SYSTEM_KEYS + ["additionalDataPools"], ["-"]);
    assert FILE_SYSTEM_KEYS + ["additionalDataPools"] + ["-"] == FILE_SYSTEM_KEYS + ["additionalDataPools", "-"];
    assert Pointer(["-"]) == "/-";
  }

  lemma FileSystemKeysPlain()
    ensures forall t :: t in FILE_SYSTEM_KEYS ==> Plain(t)
    ensures forall t :: t in FILE_SYSTEM_KEYS ==> !IsIndex(t)
  {
    assert Plain("spec") && Plain("managedResources") && Plain("cephFilesystems");
    assert !IsDigit("spec"[0]) && !IsDigit("managedResources"[0]) && !IsDigit("cephFilesystems"[0]);
  }

  lemma DataPoolKeysPlain()
    ensures forall t :: t in FILE_SYSTEM_KEYS + ["additionalDataPools", "-"] ==> Plain(t)
    ensures forall t :: t in FILE_SYSTEM_KEYS ==> !IsIndex(t)
  {
    FileSystemKeysPlain();
    assert Plain("additionalDataPools") && Plain("-");
  }

  lemma DataPoolPatches(sc: Json, value: Json)
    ensures Apply(sc, Add("/spec/managedResources/cephFilesystems/additionalDataPools", value))
         == AddAt(sc, FILE_SYSTEM_KEYS + ["additionalDataPools"], value)
    ensures Apply(sc, Add("/spec/managedResources/cephFilesystems/additionalDataPools/-", value))
         == AddAt(sc, FILE_SYSTEM_KEYS + ["additionalDataPools", "-"], value)
    ensures forall t :: t in FILE_SYSTEM_KEYS ==> !IsIndex(t)
  {
    DataPoolsPointer();
    DataPoolKeysPlain();
    ApplyPlain(sc, FILE_SYSTEM_KEYS + ["additionalDataPools"], value);
    ApplyPlain(sc, FILE_SYSTEM_KEYS + ["additionalDataPools", "-"], value);
  }

  lemma AppendDataPool(sc: Json, pool: Json)
    requires DataPools(sc).Some? && DataPools(sc).value.Arr?
    ensures AddAt(sc, FILE_SYSTEM_KEYS + ["additionalDataPools", "-"], pool)
         == Ok(WithDataPools(sc, DataPools(sc).value.items + [pool]))
  {
    var items := DataPools(sc).value.items;
    AlongThree(sc, "spec", "managedResources", "cephFilesystems",
               Set(FileSystems(sc), "additionalDataPools", Arr(items + [pool])));
    AddBelow(sc, FILE_SYSTEM_KEYS, ["additionalDataPools", "-"], pool);
    assert ["additionalDataPools", "-"][1..] == ["-"];
    assert AddAt(Arr(items), ["-"], pool) == Ok(Arr(items + [pool]));
  }

  lemma FirstDataPool(sc: Json, pool: Json)
    requires NullOrObject(FileSystems(sc))
    requires forall t :: t in FILE_SYSTEM_KEYS ==> !IsIndex(t)
    ensures AddAt(sc, FILE_SYSTEM_KEYS + ["additionalDataPools"], Arr([pool]))
         == if IsNull(FileSystems(sc)) then Err(NoSuchLocation) else Ok(WithDataPools(sc, [pool]))
  {
    AlongThree(sc, "spec", "managedResources", "cephFilesystems",
               Set(FileSystems(sc), "additionalDataPools", Arr([pool])));
    if IsNull(FileSystems(sc)) {
      AddMemberNowhere(sc, FILE_SYSTEM_KEYS, "additionalDataPools", Arr([pool]));
    } else {
      AddMember(sc, FILE_SYSTEM_KEYS, "additionalDataPools", Arr([pool]));
    }
  }

  function FsPoolKeys(sc: Json): seq<string> {
    if IsNull(DataPools(sc)) then FILE_SYSTEM_KEYS + ["additionalDataPools"]
    else FILE_SYSTEM_KEYS + ["additionalDataPools", "-"]
  }

  function FsPoolValue(pool: Json, sc: Json): Json {
    if IsNull(DataPools(sc)) then Arr([pool]) else pool
  }

  lemma FsPoolAdds(pool: Json, sc: Json)
    requires TypedFileSystems(sc)
    ensures Apply(sc, FsPoolPatch(pool, sc)) == AddAt(sc, FsPoolKeys(sc), FsPoolValue(pool, sc))
  {
    assert Truthy(DataPools(sc)) == !IsNull(DataPools(sc));
    var patch := FsPoolPatch(pool, sc);
    assert patch.value == FsPoolValue(pool, sc);
    DataPoolPatches(sc, patch.value);
    if IsNull(DataPools(sc)) {
      assert patch == Add("/spec/managedResources/cephFilesystems/additionalDataPools", patch.value);
    } else {
      assert patch == Add("/spec/managedResources/cephFilesystems/additionalDataPools/-", patch.value);
    }
  }

  lemma AddsDataPool(pool: Json, sc: Json)
    requires TypedFileSystems(sc)
    ensures AddAt(sc, FsPoolKeys(sc), FsPoolValue(pool, sc))
         == if IsNull(FileSystems(sc)) then Err(NoSuchLocation) else Ok(WithDataPools(sc, PoolList(sc) + [pool]))
  {
    if IsNull(DataPools(sc)) {
      DataPoolKeysPlain();
      FirstDataPool(sc, pool);
      assert PoolList(sc) + [pool] == [pool];
    } else {
      AppendDataPool(sc, pool);
    }
  }

  /** The patch applies exactly if the cluster manages file systems explicitly; then it appends the
      pool and changes nothing else. Without that object the request is rejected. */
  lemma FsPoolPatchApplies(state: PoolState, sc: Json)
    requires TypedFileSystems(sc)
    ensures Apply(sc, CreateFsPoolPatch(state, sc))
         == if IsNull(FileSystems(sc)) then Err(NoSuchLocation)
            else Ok(WithDataPools(sc, PoolList(sc) + [DataPool(state)]))
  {
    FsPoolAdds(DataPool(state), sc);
    AddsDataPool(DataPool(state), sc);
  }

  // ----- the same by locations -----

  /** The object with a value at a path of members, made on the way where they are missing. */
  function SetAlong(v: Option<Json>, path: seq<string>, value: Json): Json
    decreases |path|
  {
    if path == [] then value else Set(v, path[0], SetAlong(Member(v, path[0]), path[1..], value))
  }

  lemma {:induction false} SetAlongThere(v: Option<Json>, path: seq<string>, value: Json)
    ensures At(SetAlong(v, path, value), path) == Some(value)
    decreases |path|
  {
    if path == [] {
    } else {
      SetAlongThere(Member(v, path[0]), path[1..], value);
    }
  }

  /** Every location that parts from the path is as it was. */
  lemma {:induction false} SetAlongElsewhere(v: Option<Json>, path: seq<string>, value: Json, other: seq<string>)
    requires Diverge(other, path)
    ensures At(SetAlong(v, path, value), other) == if v.Some? then At(v.value, other) else None
    decreases |path|
  {
    if other[0] == path[0] {
      DivergeLater(other, path);
      SetAlongElsewhere(Member(v, path[0]), path[1..], value, other[1..]);
    }
    if v.Some? {
      AtFirst(v, other);
    }
  }

  lemma SetFour(v: Option<Json>, a: string, b: string, c: string, d: string, value: Json)
    ensures SetAlong(v, [a, b, c, d], value)
         == Set(v, a,
                Set(Member(v, a), b,
                    Set(Member(Member(v, a), b), c, Set(Member(Member(Member(v, a), b), c), d, value))))
  {
    var one, two, three := [d], [c, d], [b, c, d];
    assert [a, b, c, d][1..] == three && three[1..] == two && two[1..] == one && one[1..] == [];
    var y, z, u := Member(v, a), Member(Member(v, a), b), Member(Member(Member(v, a), b), c);
    assert SetAlong(u, one, value) == Set(u, d, value);
    assert SetAlong(z, two, value) == Set(z, c, SetAlong(u, one, value));
    assert SetAlong(y, three, value) == Set(y, b, SetAlong(z, two, value));
  }

  /** No patch is emitted exactly if there is a non-empty reference. */
  lemma EnsureSkipsIff(sc: Json)
    requires TypedCluster(sc)
    ensures EnsureMetadataPoolRef(sc) == [] <==>
              exists s ::
                && s != ""
                && At(sc, ["spec", "managedResources", "cephBlockPools", "erasureCodedMetadataPool"]) == Some(Str(s))
  {
    AtFour(sc, "spec", "managedResources", "cephBlockPools", "erasureCodedMetadataPool");
    if Truthy(PoolRef(sc)) {
      assert PoolRef(sc) == Some(Str(PoolRef(sc).value.s)) && PoolRef(sc).value.s != "";
    }
  }

  /** The locations of the cluster with the reference. */
  lemma PoolRefLocations(sc: Json)
    ensures var path := ["spec", "managedResources", "cephBlockPools", "erasureCodedMetadataPool"];
            && At(WithPoolRef(sc), path) == Some(Str("replicated-metadata-pool"))
            && forall keys :: Diverge(keys, path) ==> At(WithPoolRef(sc), keys) == At(sc, keys)
  {
    var path := ["spec", "managedResources", "cephBlockPools", "erasureCodedMetadataPool"];
    SetFour(Some(sc), "spec", "managedResources", "cephBlockPools", "erasureCodedMetadataPool", Str(METADATA_POOL));
    assert WithPoolRef(sc) == SetAlong(Some(sc), path, Str(METADATA_POOL));
    SetAlongThere(Some(sc), path, Str(METADATA_POOL));
    forall keys | Diverge(keys, path)
      ensures At(WithPoolRef(sc), keys) == At(sc, keys)
    {
      SetAlongElsewhere(Some(sc), path, Str(METADATA_POOL), keys);
    }
  }

  /** For a cluster with a spec and without a reference, the patch applies, sets the reference, and
      leaves every location that parts from it as it was; without a spec it is rejected. */
  lemma EnsureByLocations(sc: Json)
    requires TypedCluster(sc)
    requires forall s :: s != "" ==>
               At(sc, ["spec", "managedResources", "cephBlockPools", "erasureCodedMetadataPool"]) != Some(Str(s))
    ensures var result := ApplyAll(sc, EnsureMetadataPoolRef(sc));
            var path := ["spec", "managedResources", "cephBlockPools", "erasureCodedMetadataPool"];
            && (result.Ok? <==> Member(Some(sc), "spec").Some? && Member(Some(sc), "spec").value.Obj?)
            && (result.Ok? ==>
                  && At(result.value, path) == Some(Str("replicated-metadata-pool"))
                  && forall keys :: Diverge(keys, path) ==> At(result.value, keys) == At(sc, keys))
  {
    EnsureSkipsIff(sc);
    EnsureApplies(sc);
    PoolRefLocations(sc);
  }

  /** The pool that the form describes. */
  lemma DataPoolFields(state: PoolState)
    ensures var coded := state.erasureCoding && state.scheme.Some?;
            var compression := if state.isCompressed then "aggressive" else "none";
            DataPool(state) == Obj(
              map["name" := Str(state.poolName), "compressionMode" := Str(compression)]
              + if coded then
                  map["erasureCoded" := Obj(map["dataChunks" := Num(state.scheme.value.k),
                                                "codingChunks" := Num(state.scheme.value.m)])]
                else map["replicated" := Obj(map["size" := Num(state.replicaSize)])])
  {
  }

  /** The data-pool patch applies exactly if there is a cephFilesystems object; then the pool stands
      behind the old ones, and every location that parts from the list is as it was. */
  lemma FsPoolByLocations(state: PoolState, sc: Json)
    requires TypedFileSystems(sc)
    ensures var result := Apply(sc, CreateFsPoolPatch(state, sc));
            var path := ["spec", "managedResources", "cephFilesystems", "additionalDataPools"];
            var fs := At(sc, ["spec", "managedResources", "cephFilesystems"]);
            var present := if At(sc, path).Some? && At(sc, path).value.Arr? then At(sc, path).value.items else [];
            && (result.Ok? <==> fs.Some? && fs.value.Obj?)
            && (result.Ok? ==>
                  && At(result.value, path) == Some(Arr(present + [DataPool(state)]))
                  && forall keys :: Diverge(keys, path) ==> At(result.value, keys) == At(sc, keys))
  {
    var path := ["spec", "managedResources", "cephFilesystems", "additionalDataPools"];
    AtFour(sc, "spec", "managedResources", "cephFilesystems", "additionalDataPools");
    FsPoolPatchApplies(state, sc);
    var pools := PoolList(sc) + [DataPool(state)];
    SetFour(Some(sc), "spec", "managedResources", "cephFilesystems", "additionalDataPools", Arr(pools));
    assert WithDataPools(sc, pools) == SetAlong(Some(sc), path, Arr(pools));
    SetAlongThere(Some(sc), path, Arr(pools));
    forall keys | Diverge(keys, path)
      ensures At(WithDataPools(sc, pools), keys) == At(sc, keys)
    {
      SetAlongElsewhere(Some(sc), path, Arr(pools), keys);
    }
  }
}
