/**
 The JSON patches that attach an object bucket claim to the containers of a deployment
 (packages/odf/utils/mcg.ts).
 */
module ObcAttach {
  import opened Options
  import opened Strings
  import opened JsonPatch

  function Ref(kind: string, name: string): Json {
    Obj(map[kind := Obj(map["name" := Str(name)])])
  }

  const CONTAINERS: seq<string> := ["spec", "template", "spec", "containers"]

  function EnvFromTokens(i: nat): seq<string> {
    CONTAINERS + [Decimal(i), "envFrom"]
  }

  function EnvFromPath(i: nat): string {
    "/spec/template/spec/containers/" + Decimal(i) + "/envFrom"
  }

  /** The patches for the container at index `i`. */
  function ContainerPatches(obcName: string, envFrom: Option<Json>, i: nat): seq<Patch> {
    var first :=
      if IsEmpty(envFrom) then Add(EnvFromPath(i), Arr([Ref("configMapRef", obcName)]))
      else Add(EnvFromPath(i) + "/-", Ref("configMapRef", obcName));
    [first, Add(EnvFromPath(i) + "/-", Ref("secretRef", obcName))]
  }

  function PatchesFrom(obcName: string, containers: seq<Json>, i: nat): seq<Patch>
    requires i <= |containers|
    decreases |containers| - i
  {
    if i == |containers| then []
    else ContainerPatches(obcName, Member(Some(containers[i]), "envFrom"), i) + PatchesFrom(obcName, containers, i + 1)
  }

  /** The containers of the pod template; undefined as soon as one level is missing. */
  function ContainersOf(deployment: Json): Option<Json> {
    Member(Member(Member(Member(Some(deployment), "spec"), "template"), "spec"), "containers")
  }

  /** A container, whose `envFrom` is a list if it is set. */
  predicate IsContainer(container: Json) {
    && container.Obj?
    && var envFrom := Member(Some(container), "envFrom");
       IsNull(envFrom) || envFrom.value.Arr?
  }

  /** What the API server guarantees of a Deployment's containers, if it has any. */
  predicate WellFormed(deployment: Json) {
    var containers := ContainersOf(deployment);
    IsNull(containers)
    || (containers.value.Arr?
        && forall k :: 0 <= k < |containers.value.items| ==> IsContainer(containers.value.items[k]))
  }

  function ContainerList(deployment: Json): seq<Json>
    requires WellFormed(deployment)
  {
    if IsNull(ContainersOf(deployment)) then [] else ContainersOf(deployment).value.items
  }

  /** The two patches pushed for one container. */
  method PatchContainer(configMapRef: Json, secretMapRef: Json, container: Json, i: nat)
    returns (first: Patch, second: Patch)
    ensures forall name :: configMapRef == Ref("configMapRef", name) && secretMapRef == Ref("secretRef", name) ==>
              [first, second] == ContainerPatches(name, Member(Some(container), "envFrom"), i)
  {
    if IsEmpty(Member(Some(container), "envFrom")) {
      first := Add(EnvFromPath(i), Arr([configMapRef]));
      second := Add(EnvFromPath(i) + "/-", secretMapRef);
    } else {
      first := Add(EnvFromPath(i) + "/-", configMapRef);
      second := Add(EnvFromPath(i) + "/-", secretMapRef);
    }
  }

  lemma PushedBehind(patches: seq<Patch>, first: Patch, second: Patch, rest: seq<Patch>)
    ensures patches + ([first, second] + rest) == (patches + [first] + [second]) + rest
  {
  }

  method GetAttachOBCPatch(obcName: string, deployment: Json) returns (patches: seq<Patch>)
    requires WellFormed(deployment)
    ensures patches == PatchesFrom(obcName, ContainerList(deployment), 0)
  {
    var configMapRef := Ref("configMapRef", obcName);
    var secretMapRef := Ref("secretRef", obcName);
    var containers := ContainerList(deployment);
    patches := [];
    for i := 0 to |containers|
      invariant patches + PatchesFrom(obcName, containers, i) == PatchesFrom(obcName, containers, 0)
    {
      var first, second := PatchContainer(configMapRef, secretMapRef, containers[i], i);
      PushedBehind(patches, first, second, PatchesFrom(obcName, containers, i + 1));
      patches := patches + [first];
      patches := patches + [second];
    }
  }

  /** The references a container takes its environment from. */
  function EnvList(envFrom: Option<Json>): seq<Json> {
    if envFrom.Some? && envFrom.value.Arr? then envFrom.value.items else []
  }

  function WithEnv(container: Json, refs: seq<Json>): Json {
    if container.Obj? then Obj(container.members["envFrom" := Arr(refs)]) else container
  }

  /** The container with both references behind its old ones, and nothing else changed. */
  function Attached(obcName: string, container: Json): Json {
    var present := EnvList(Member(Some(container), "envFrom"));
    WithEnv(container, present + [Ref("configMapRef", obcName), Ref("secretRef", obcName)])
  }

  /** The containers from index `i` on changed, those before as they are. */
  function AttachedFrom(obcName: string, containers: seq<Json>, i: nat): (r: seq<Json>)
    requires i <= |containers|
    ensures |r| == |containers|
    ensures forall k :: 0 <= k < |containers| ==>
              r[k] == if k < i then containers[k] else Attached(obcName, containers[k])
  {
    seq(|containers|, k requires 0 <= k < |containers| =>
      if k < i then containers[k] else Attached(obcName, containers[k]))
  }

  lemma ContainersPath()
    ensures "/" + "spec" + "/" + "template" + "/" + "spec" + "/" + "containers" == "/spec/template/spec/containers"
    ensures "/spec/template/spec/containers" + "/" == "/spec/template/spec/containers/"
  {
  }

  lemma ContainersPointer()
    ensures Pointer(CONTAINERS) + "/" == "/spec/template/spec/containers/"
  {
    PointerOf4("spec", "template", "spec", "containers");
    ContainersPath();
  }

  lemma ContainersPlain()
    ensures forall t :: t in CONTAINERS ==> Plain(t)
  {
    assert Plain("spec") && Plain("template") && Plain("containers");
  }

  lemma EnvFromPointer(i: nat)
    ensures Pointer(EnvFromTokens(i)) == EnvFromPath(i)
    ensures Pointer(EnvFromTokens(i) + ["-"]) == EnvFromPath(i) + "/-"
    ensures forall t :: t in EnvFromTokens(i) + ["-"] ==> Plain(t)
  {
    DecimalIsPlain(i);
    ContainersPointer();
    ContainersPlain();
    assert Plain("envFrom") && Plain("-");
    PointerConcat(CONTAINERS, [Decimal(i), "envFrom"]);
    PointerConcat(EnvFromTokens(i), ["-"]);
    assert Pointer(["envFrom"]) == "/envFrom";
    assert Pointer([Decimal(i), "envFrom"]) == "/" + Decimal(i) + "/envFrom";
    assert Pointer(["-"]) == "/-";
    assert Pointer(CONTAINERS) + ("/" + Decimal(i) + "/envFrom") == Pointer(CONTAINERS) + "/" + Decimal(i) + "/envFrom";
  }

  lemma ContainersAt(deployment: Json)
    requires ContainersOf(deployment).Some?
    ensures At(deployment, CONTAINERS) == ContainersOf(deployment)
  {
    var spec := deployment.members["spec"];
    var template := spec.members["template"];
    var inner := template.members["spec"];
    assert CONTAINERS[1..] == ["template", "spec", "containers"];
    assert At(inner, ["containers"]) == Some(inner.members["containers"]);
    assert At(template, ["spec", "containers"]) == At(inner, ["containers"]);
    assert At(spec, ["template", "spec", "containers"]) == At(template, ["spec", "containers"]);
  }

  /** Adding a member of container `i`. */
  lemma AddEnvFrom(containers: seq<Json>, i: nat, value: Json)
    requires i < |containers| && containers[i].Obj?
    ensures AddAt(Arr(containers), [Decimal(i), "envFrom"], value)
         == Ok(Arr(containers[i := Obj(containers[i].members["envFrom" := value])]))
  {
    DecimalIsPlain(i);
    assert [Decimal(i), "envFrom"][1..] == ["envFrom"];
  }

  /** Adding at the end of the `envFrom` list of container `i`. */
  lemma AddEnvFromEnd(containers: seq<Json>, i: nat, value: Json)
    requires i < |containers| && containers[i].Obj? && "envFrom" in containers[i].members
    requires containers[i].members["envFrom"].Arr?
    ensures AddAt(Arr(containers), [Decimal(i), "envFrom", "-"], value)
         == Ok(Arr(containers[i := WithEnv(containers[i], containers[i].members["envFrom"].items + [value])]))
  {
    DecimalIsPlain(i);
    var envFrom := containers[i].members["envFrom"];
    assert [Decimal(i), "envFrom", "-"][1..] == ["envFrom", "-"];
    assert ["envFrom", "-"][1..] == ["-"];
    assert AddAt(envFrom, ["-"], value) == Place(envFrom, "-", value);
  }

  /** A patch under container `i` of the deployment acts on the list of containers alone. */
  lemma ApplyInContainers(deployment: Json, containers: seq<Json>, i: nat, rest: seq<string>, value: Json)
    requires At(deployment, CONTAINERS) == Some(Arr(containers)) && rest in [["envFrom"], ["envFrom", "-"]]
    ensures var path := if rest == ["envFrom"] then EnvFromPath(i) else EnvFromPath(i) + "/-";
            var sub := AddAt(Arr(containers), [Decimal(i)] + rest, value);
            Apply(deployment, Add(path, value)) == if sub.Ok? then Ok(With(deployment, CONTAINERS, sub.value)) else sub
  {
    EnvFromPointer(i);
    assert EnvFromTokens(i) + ["-"] == CONTAINERS + ([Decimal(i)] + ["envFrom", "-"]);
    assert EnvFromTokens(i) == CONTAINERS + ([Decimal(i)] + ["envFrom"]);
    ApplyPlain(deployment, CONTAINERS + ([Decimal(i)] + rest), value);
    AddBelow(deployment, CONTAINERS, [Decimal(i)] + rest, value);
  }

  function Env(container: Json): Option<Json> {
    Member(Some(container), "envFrom")
  }

  /** The first patch leaves the old list followed by the configMapRef. */
  lemma FirstPatch(obcName: string, deployment: Json, containers: seq<Json>, i: nat)
    requires At(deployment, CONTAINERS) == Some(Arr(containers)) && i < |containers| && IsContainer(containers[i])
    ensures var list := EnvList(Env(containers[i])) + [Ref("configMapRef", obcName)];
            Apply(deployment, ContainerPatches(obcName, Env(containers[i]), i)[0])
            == Ok(With(deployment, CONTAINERS,
                    Arr(containers[i := WithEnv(containers[i], list)])))
  {
    var config := Ref("configMapRef", obcName);
    if IsEmpty(Env(containers[i])) {
      ApplyInContainers(deployment, containers, i, ["envFrom"], Arr([config]));
      AddEnvFrom(containers, i, Arr([config]));
      assert [Decimal(i)] + ["envFrom"] == [Decimal(i), "envFrom"];
      assert EnvList(Env(containers[i])) + [config] == [config];
    } else {
      ApplyInContainers(deployment, containers, i, ["envFrom", "-"], config);
      AddEnvFromEnd(containers, i, config);
      assert [Decimal(i)] + ["envFrom", "-"] == [Decimal(i), "envFrom", "-"];
    }
  }

  /** The second patch appends the secretRef to a list. */
  lemma SecondPatch(obcName: string, deployment: Json, containers: seq<Json>, i: nat, list: seq<Json>)
    requires At(deployment, CONTAINERS) == Some(Arr(containers)) && i < |containers|
    requires containers[i].Obj? && Env(containers[i]) == Some(Arr(list))
    ensures Apply(deployment, Add(EnvFromPath(i) + "/-", Ref("secretRef", obcName)))
         == Ok(With(deployment, CONTAINERS,
                    Arr(containers[i := WithEnv(containers[i], list + [Ref("secretRef", obcName)])])))
  {
    var secret := Ref("secretRef", obcName);
    ApplyInContainers(deployment, containers, i, ["envFrom", "-"], secret);
    AddEnvFromEnd(containers, i, secret);
    assert [Decimal(i)] + ["envFrom", "-"] == [Decimal(i), "envFrom", "-"];
  }

  lemma ApplyBoth(doc: Json, p: Patch, q: Patch)
    requires Apply(doc, p).Ok?
    ensures ApplyAll(doc, [p, q]) == Apply(Apply(doc, p).value, q)
  {
    var mid := Apply(doc, p).value;
    assert [p, q][1..] == [q] && [q][1..] == [];
    assert ApplyAll(mid, [q]) == Apply(mid, q);
  }

  lemma WithEnvTwice(container: Json, a: seq<Json>, b: seq<Json>)
    ensures WithEnv(WithEnv(container, a), b) == WithEnv(container, b)
  {
    if container.Obj? {
      assert container.members["envFrom" := Arr(a)]["envFrom" := Arr(b)] == container.members["envFrom" := Arr(b)];
    }
  }

  lemma ContainerPatched(obcName: string, deployment: Json, containers: seq<Json>, i: nat)
    requires At(deployment, CONTAINERS) == Some(Arr(containers)) && i < |containers| && IsContainer(containers[i])
    ensures ApplyAll(deployment, ContainerPatches(obcName, Env(containers[i]), i))
         == Ok(With(deployment, CONTAINERS, Arr(containers[i := Attached(obcName, containers[i])])))
  {
    var config, secret := Ref("configMapRef", obcName), Ref("secretRef", obcName);
    var present := EnvList(Env(containers[i]));
    var list := present + [config];
    var half := containers[i := WithEnv(containers[i], list)];
    FirstPatch(obcName, deployment, containers, i);
    WithAgain(deployment, CONTAINERS, Arr(half), Arr(containers[i := Attached(obcName, containers[i])]));
    SecondPatch(obcName, With(deployment, CONTAINERS, Arr(half)), half, i, list);
    assert list + [secret] == present + [config, secret];
    WithEnvTwice(containers[i], list, list + [secret]);
    assert half[i := WithEnv(half[i], list + [secret])] == containers[i := Attached(obcName, containers[i])];
    var patches := ContainerPatches(obcName, Env(containers[i]), i);
    ApplyBoth(deployment, patches[0], patches[1]);
  }

  lemma {:induction false} PatchesFromLocal(obcName: string, s: seq<Json>, t: seq<Json>, i: nat)
    requires |s| == |t| && i <= |s| && s[i..] == t[i..]
    ensures PatchesFrom(obcName, s, i) == PatchesFrom(obcName, t, i)
    decreases |s| - i
  {
    if i == |s| {
    } else {
      assert s[i] == s[i..][0] && t[i] == t[i..][0];
      assert s[i + 1..] == s[i..][1..] && t[i + 1..] == t[i..][1..];
      PatchesFromLocal(obcName, s, t, i + 1);
    }
  }

  /** The patches of one container and then those of the rest, over documents that differ at one location. */
  lemma PatchedInTurn(
    doc: Json, mid: Json, first: seq<Patch>, rest: seq<Patch>, next: Json, last: Json)
    requires At(doc, CONTAINERS).Some? && mid == With(doc, CONTAINERS, next) && At(mid, CONTAINERS).Some?
    requires ApplyAll(doc, first) == Ok(mid) && ApplyAll(mid, rest) == Ok(With(mid, CONTAINERS, last))
    ensures ApplyAll(doc, first + rest) == Ok(With(doc, CONTAINERS, last))
  {
    ApplyAllConcat(doc, first, rest);
    WithAgain(doc, CONTAINERS, next, last);
  }

  lemma AttachedFromNext(obcName: string, containers: seq<Json>, i: nat)
    requires i < |containers|
    ensures var next := containers[i := Attached(obcName, containers[i])];
            AttachedFrom(obcName, next, i + 1) == AttachedFrom(obcName, containers, i)
  {
  }

  lemma {:induction false} ContainersPatched(obcName: string, deployment: Json, containers: seq<Json>, i: nat)
    requires At(deployment, CONTAINERS) == Some(Arr(containers)) && i <= |containers|
    requires forall k :: 0 <= k < |containers| ==> IsContainer(containers[k])
    ensures ApplyAll(deployment, PatchesFrom(obcName, containers, i))
         == Ok(With(deployment, CONTAINERS, Arr(AttachedFrom(obcName, containers, i))))
    decreases |containers| - i
  {
    if i == |containers| {
      WithAgain(deployment, CONTAINERS, Arr(containers), Arr(containers));
      assert AttachedFrom(obcName, containers, i) == containers;
    } else {
      var next := containers[i := Attached(obcName, containers[i])];
      var rest := PatchesFrom(obcName, containers, i + 1);
      ContainerPatched(obcName, deployment, containers, i);
      PatchesFromLocal(obcName, containers, next, i + 1);
      AttachedFromNext(obcName, containers, i);
      WithAgain(deployment, CONTAINERS, Arr(next), Arr(next));
      assert IsContainer(next[i]);
      var mid := With(deployment, CONTAINERS, Arr(next));
      ContainersPatched(obcName, mid, next, i + 1);
      PatchedInTurn(deployment, mid, ContainerPatches(obcName, Env(containers[i]), i), rest,
                    Arr(next), Arr(AttachedFrom(obcName, containers, i)));
    }
  }

  /** The patches apply to every deployment, give each container's environment both references
      behind the old ones, and change nothing else. */
  lemma AttachApplies(obcName: string, deployment: Json)
    requires WellFormed(deployment)
    ensures var result := ApplyAll(deployment, PatchesFrom(obcName, ContainerList(deployment), 0));
            if IsNull(ContainersOf(deployment)) then result == Ok(deployment)
            else
              var containers := ContainersOf(deployment).value.items;
              var attached := seq(|containers|, k requires 0 <= k < |containers| => Attached(obcName, containers[k]));
              At(deployment, CONTAINERS).Some? && result == Ok(With(deployment, CONTAINERS, Arr(attached)))
  {
    if !IsNull(ContainersOf(deployment)) {
      var containers := ContainersOf(deployment).value.items;
      ContainersAt(deployment);
      ContainersPatched(obcName, deployment, containers, 0);
      assert AttachedFrom(obcName, containers, 0)
          == seq(|containers|, k requires 0 <= k < |containers| => Attached(obcName, containers[k]));
    }
  }

  /** The same by locations: for a deployment with containers the patches apply; each container keeps
      its members except `envFrom`, which becomes its old list followed by the two references; and
      every location outside the containers is as it was. */
  lemma AttachByLocations(obcName: string, deployment: Json, items: seq<Json>)
    requires WellFormed(deployment)
    requires At(deployment, ["spec", "template", "spec", "containers"]) == Some(Arr(items))
    ensures var result := ApplyAll(deployment, PatchesFrom(obcName, ContainerList(deployment), 0));
            result.Ok?
            && (forall keys :: Diverge(keys, ["spec", "template", "spec", "containers"]) ==>
                  At(result.value, keys) == At(deployment, keys))
            && exists after: seq<Json> ::
                 && At(result.value, ["spec", "template", "spec", "containers"]) == Some(Arr(after))
                 && |after| == |items|
                 && forall k :: 0 <= k < |items| ==> ContainerAfter(obcName, items[k], after[k])
  {
    ContainersAtIs(deployment, items);
    AttachApplies(obcName, deployment);
    var attached := seq(|items|, k requires 0 <= k < |items| => Attached(obcName, items[k]));
    assert At(deployment, CONTAINERS).Some?;
    forall k | 0 <= k < |items|
      ensures ContainerAfter(obcName, items[k], attached[k])
    {
      AttachedIs(obcName, items[k]);
    }
    WithAgain(deployment, CONTAINERS, Arr(attached), Arr(attached));
    forall keys | Diverge(keys, ["spec", "template", "spec", "containers"])
      ensures At(With(deployment, CONTAINERS, Arr(attached)), keys) == At(deployment, keys)
    {
      WithElsewhere(deployment, CONTAINERS, Arr(attached), keys);
    }
  }

  /** One container before and after. */
  ghost predicate ContainerAfter(obcName: string, before: Json, after: Json) {
    && before.Obj? && after.Obj?
    && var present :=
         if "envFrom" in before.members && before.members["envFrom"].Arr? then before.members["envFrom"].items else [];
       after.members == before.members["envFrom" := Arr(present + [
         Obj(map["configMapRef" := Obj(map["name" := Str(obcName)])]),
         Obj(map["secretRef" := Obj(map["name" := Str(obcName)])])])]
  }

  lemma AttachedIs(obcName: string, container: Json)
    requires IsContainer(container)
    ensures ContainerAfter(obcName, container, Attached(obcName, container))
  {
  }

  lemma ContainersAtIs(deployment: Json, items: seq<Json>)
    requires At(deployment, ["spec", "template", "spec", "containers"]) == Some(Arr(items))
    ensures ContainersOf(deployment) == Some(Arr(items)) && At(deployment, CONTAINERS) == Some(Arr(items))
  {
    AtFour(deployment, "spec", "template", "spec", "containers");
  }
}
