/**
 The list of S3 store profiles inside the Ramen hub operator's ConfigMap and the change that one
 attempt makes to it (packages/mco/utils/tps-payload-creator.ts).
 */
module S3Profiles {
  import opened Options
  import opened Sequences

  datatype Value = Text(text: string) | Nested(fields: map<string, string>)

  /** A profile: its `s3ProfileName` and its other own fields. */
  datatype Profile = Profile(name: string, fields: map<string, Value>)

  /** The parsed YAML document; `profiles` may be absent. */
  datatype RamenConfig = RamenConfig(profiles: Option<seq<Profile>>, rest: map<string, Value>)

  /** The data of the ConfigMap: the parsed entry under the Ramen key, if there is a non-empty
      one, and the other entries. */
  datatype Content = Content(config: Option<RamenConfig>, rest: map<string, string>)

  datatype ConfigMap = ConfigMap(version: nat, content: Content)

  /** A caller's request: upsert the profile, or remove the one of that name. */
  datatype Op = Op(profile: Profile, remove: bool)

  // ----- the list -----

  predicate HasName(ps: seq<Profile>, name: string) {
    exists k :: 0 <= k < |ps| && ps[k].name == name
  }

  function IndexOf(ps: seq<Profile>, name: string): (k: nat)
    requires HasName(ps, name)
    ensures k < |ps| && ps[k].name == name
    ensures forall j :: 0 <= j < k ==> ps[j].name != name
  {
    if ps[0].name == name then 0 else
      assert HasName(ps[1..], name) by {
        var k :| 0 <= k < |ps| && ps[k].name == name;
        assert ps[1..][k - 1].name == name;
      }
      1 + IndexOf(ps[1..], name)
  }

  ghost predicate UniqueNames(ps: seq<Profile>) {
    forall i, j :: 0 <= i < j < |ps| ==> ps[i].name != ps[j].name
  }

  /** `Object.assign(dest, src)`: fields that only `dest` has stay. */
  function Assigned(dest: Profile, src: Profile): Profile {
    Profile(src.name, dest.fields + src.fields)
  }

  function Applied(op: Op, ps: seq<Profile>): seq<Profile> {
    var name := op.profile.name;
    if op.remove then
      if HasName(ps, name) then RemoveAt(ps, IndexOf(ps, name)) else ps
    else if HasName(ps, name) then
      ps[IndexOf(ps, name) := Assigned(ps[IndexOf(ps, name)], op.profile)]
    else ps + [op.profile]
  }

  /** Whether the attempt sends a write at all. */
  predicate Writes(op: Op, ps: seq<Profile>) {
    var name := op.profile.name;
    if op.remove then HasName(ps, name)
    else HasName(ps, name) ==> ps[IndexOf(ps, name)] != op.profile
  }

  /** The document whose list the attempt changes in place. */
  class ProfileList {
    var s3StoreProfiles: seq<Profile>

    constructor (profiles: Option<seq<Profile>>)
      ensures s3StoreProfiles == if profiles.Some? then profiles.value else []
    {
      s3StoreProfiles := if profiles.Some? then profiles.value else [];
    }

    method FindIndex(name: string) returns (idx: int)
      ensures HasName(s3StoreProfiles, name) ==> idx == IndexOf(s3StoreProfiles, name)
      ensures !HasName(s3StoreProfiles, name) ==> idx == -1
    {
      idx := 0;
      while idx < |s3StoreProfiles|
        invariant 0 <= idx <= |s3StoreProfiles|
        invariant forall j :: 0 <= j < idx ==> s3StoreProfiles[j].name != name
      {
        if s3StoreProfiles[idx].name == name {
          return;
        }
        idx := idx + 1;
      }
      idx := -1;
    }

    /** Splices, pushes or assigns; `changed` is false where the attempt returns early. */
    method Update(profile: Profile, remove: bool) returns (changed: bool)
      modifies this
      ensures s3StoreProfiles == Applied(Op(profile, remove), old(s3StoreProfiles))
      ensures changed == Writes(Op(profile, remove), old(s3StoreProfiles))
    {
      var idx := FindIndex(profile.name);
      changed := true;
      if remove {
        if idx != -1 {
          s3StoreProfiles := s3StoreProfiles[..idx] + s3StoreProfiles[idx + 1..];
        } else {
          changed := false;
        }
      } else if idx == -1 {
        s3StoreProfiles := s3StoreProfiles + [profile];
      } else if s3StoreProfiles[idx] != profile {
        s3StoreProfiles := s3StoreProfiles[idx := Assigned(s3StoreProfiles[idx], profile)];
      } else {
        assert Assigned(profile, profile) == profile;
        changed := false;
      }
    }
  }

  // ----- one attempt -----

  /** What the code between the read and the write decides. */
  datatype Plan = Throws | Returns | Puts(next: ConfigMap)

  function ListOf(config: RamenConfig): seq<Profile> {
    if config.profiles.Some? then config.profiles.value else []
  }

  /** The effect of the request on the stored data, as one indivisible operation. */
  function Effect(op: Op, content: Content): Content {
    if content.config.None? || !Writes(op, ListOf(content.config.value)) then content
    else
      var config := content.config.value;
      content.(config := Some(config.(profiles := Some(Applied(op, ListOf(config))))))
  }

  function Planned(op: Op, cm: ConfigMap): Plan {
    if cm.content.config.None? then Throws
    else if Writes(op, ListOf(cm.content.config.value)) then Puts(ConfigMap(cm.version, Effect(op, cm.content)))
    else Returns
  }

  /** The continuation of the attempt once its read has resolved with `cm`. */
  method PlanUpdate(cm: ConfigMap, profile: Profile, remove: bool) returns (plan: Plan)
    ensures plan == Planned(Op(profile, remove), cm)
  {
    if cm.content.config.None? {
      return Throws;
    }
    var ramenConfig := cm.content.config.value;
    var list := new ProfileList(ramenConfig.profiles);
    var changed := list.Update(profile, remove);
    if !changed {
      return Returns;
    }
    plan := Puts(cm.(content := cm.content.(config := Some(ramenConfig.(profiles := Some(list.s3StoreProfiles))))));
  }

  // ----- what a request does, seen by name -----

  function Lookup(ps: seq<Profile>, name: string): Option<Profile> {
    if HasName(ps, name) then Some(ps[IndexOf(ps, name)]) else None
  }

  /** The profiles of all other names, in order. */
  function Others(ps: seq<Profile>, name: string): seq<Profile> {
    if ps == [] then [] else
      (if ps[0].name == name then [] else [ps[0]]) + Others(ps[1..], name)
  }

  /** What the request makes of the entry under its own name. */
  function EntryAfter(op: Op, entry: Option<Profile>): Option<Profile> {
    if op.remove then None
    else if entry.None? then Some(op.profile)
    else Some(Assigned(entry.value, op.profile))
  }

  lemma {:induction false} OthersOfConcat(s: seq<Profile>, t: seq<Profile>, name: string)
    ensures Others(s + t, name) == Others(s, name) + Others(t, name)
  {
    if s == [] {
      assert s + t == t;
    } else {
      assert (s + t)[1..] == s[1..] + t;
      OthersOfConcat(s[1..], t, name);
    }
  }

  lemma OthersReplaced(front: seq<Profile>, x: Profile, mid: seq<Profile>, back: seq<Profile>, name: string)
    requires x.name == name && |mid| <= 1 && forall y :: y in mid ==> y.name == name
    ensures Others(front + mid + back, name) == Others(front + [x] + back, name)
  {
    OthersOfConcat(front + [x], back, name);
    OthersOfConcat(front, [x], name);
    OthersOfConcat(front + mid, back, name);
    OthersOfConcat(front, mid, name);
  }

  /** Profiles of other names are neither lost nor changed nor reordered. */
  lemma AppliedKeepsOthers(op: Op, ps: seq<Profile>)
    ensures Others(Applied(op, ps), op.profile.name) == Others(ps, op.profile.name)
  {
    var name := op.profile.name;
    if HasName(ps, name) {
      var k := IndexOf(ps, name);
      var mid := if op.remove then [] else [Assigned(ps[k], op.profile)];
      SplitAround(ps, k, Assigned(ps[k], op.profile));
      OthersReplaced(ps[..k], ps[k], mid, ps[k + 1..], name);
    } else if !op.remove {
      OthersOfConcat(ps, [op.profile], name);
    }
  }

  lemma AppliedKeepsUnique(op: Op, ps: seq<Profile>)
    requires UniqueNames(ps)
    ensures UniqueNames(Applied(op, ps))
  {
  }

  lemma LookupIs(ps: seq<Profile>, k: nat)
    requires UniqueNames(ps) && k < |ps|
    ensures Lookup(ps, ps[k].name) == Some(ps[k])
  {
  }

  /** On a list with unique names the request acts as on a dictionary. */
  lemma AppliedLookup(op: Op, ps: seq<Profile>, name: string)
    requires UniqueNames(ps)
    ensures Lookup(Applied(op, ps), name)
         == if name == op.profile.name then EntryAfter(op, Lookup(ps, name)) else Lookup(ps, name)
  {
    var after := Applied(op, ps);
    AppliedKeepsUnique(op, ps);
    if name == op.profile.name {
      if HasName(ps, name) {
        var k := IndexOf(ps, name);
        if !op.remove {
          LookupIs(after, k);
        }
      } else if !op.remove {
        LookupIs(after, |ps|);
      }
    } else if HasName(ps, name) {
      var k := IndexOf(ps, name);
      var k' := if op.remove && HasName(ps, op.profile.name) && IndexOf(ps, op.profile.name) < k then k - 1 else k;
      assert after[k'] == ps[k];
      LookupIs(after, k');
    }
  }

  lemma NoWriteNoChange(op: Op, ps: seq<Profile>)
    requires !Writes(op, ps)
    ensures Applied(op, ps) == ps
  {
    if !op.remove {
      assert Assigned(op.profile, op.profile) == op.profile;
    }
  }

  /** The value of a field of the profile stored under a name. */
  function FieldOf(ps: seq<Profile>, name: string, field: string): Option<Value> {
    if HasName(ps, name) && field in ps[IndexOf(ps, name)].fields then Some(ps[IndexOf(ps, name)].fields[field])
    else None
  }

  /** An upsert field by field: the request's value wins, every other stored field stays, and there
      is no further one. */
  lemma UpsertFields(op: Op, ps: seq<Profile>, field: string)
    requires !op.remove
    ensures HasName(Applied(op, ps), op.profile.name)
    ensures FieldOf(Applied(op, ps), op.profile.name, field)
         == if field in op.profile.fields then Some(op.profile.fields[field])
            else FieldOf(ps, op.profile.name, field)
  {
    var name := op.profile.name;
    var after := Applied(op, ps);
    var k := if HasName(ps, name) then IndexOf(ps, name) else |ps|;
    assert after[k].name == name && forall j :: 0 <= j < k ==> after[j].name != name;
    assert IndexOf(after, name) == k;
  }

  /** Where the list changes: an upsert touches the first profile of the name or appends one, a
      remove takes the first one out. */
  lemma AppliedPlaces(op: Op, ps: seq<Profile>)
    ensures !HasName(ps, op.profile.name) ==>
              Applied(op, ps) == if op.remove then ps else ps + [op.profile]
    ensures HasName(ps, op.profile.name) && !op.remove ==>
              |Applied(op, ps)| == |ps|
              && Applied(op, ps)[IndexOf(ps, op.profile.name)].name == op.profile.name
              && forall j :: 0 <= j < |ps| && j != IndexOf(ps, op.profile.name) ==> Applied(op, ps)[j] == ps[j]
    ensures HasName(ps, op.profile.name) && op.remove ==>
              |Applied(op, ps)| == |ps| - 1
              && forall j :: 0 <= j < |ps| - 1 ==>
                   Applied(op, ps)[j] == ps[if j < IndexOf(ps, op.profile.name) then j else j + 1]
  {
    if HasName(ps, op.profile.name) && op.remove {
      forall j | 0 <= j < |ps| - 1
        ensures Applied(op, ps)[j] == ps[if j < IndexOf(ps, op.profile.name) then j else j + 1]
      {
        RemoveAtIndex(ps, IndexOf(ps, op.profile.name), j);
      }
    }
  }

  /** A write is due unless a remove finds nothing or an upsert finds exactly the given profile. */
  lemma WritesIff(op: Op, ps: seq<Profile>)
    ensures op.remove ==> (Writes(op, ps) <==> exists p :: p in ps && p.name == op.profile.name)
    ensures !op.remove ==>
              (!Writes(op, ps) <==>
               exists k :: 0 <= k < |ps| && ps[k] == op.profile
                        && forall j :: 0 <= j < k ==> ps[j].name != op.profile.name)
  {
    if HasName(ps, op.profile.name) {
      var k := IndexOf(ps, op.profile.name);
      assert ps[k] in ps && ps[k].name == op.profile.name;
    }
  }

  /** What an attempt does with the ConfigMap it has read. */
  lemma PlanIs(op: Op, cm: ConfigMap)
    ensures Planned(op, cm).Throws? <==> cm.content.config.None?
    ensures cm.content.config.Some? ==> (Planned(op, cm).Puts? <==> Writes(op, ListOf(cm.content.config.value)))
    ensures Planned(op, cm).Puts? ==>
              var next := Planned(op, cm).next;
              && next.version == cm.version && next.content.rest == cm.content.rest
              && next.content.config.Some? && next.content.config.value.rest == cm.content.config.value.rest
              && next.content.config.value.profiles == Some(Applied(op, ListOf(cm.content.config.value)))
  {
  }

  ghost predicate AtMostOnce(ps: seq<Profile>, name: string) {
    forall i, j :: 0 <= i < j < |ps| ==> !(ps[i].name == ps[j].name == name)
  }

  /** A remove takes out one profile of the name, so that a repeated one finds none exactly if there
      was no second. */
  lemma RepeatedRemoveIsQuiet(op: Op, ps: seq<Profile>)
    requires op.remove
    ensures !Writes(op, Applied(op, ps)) <==> AtMostOnce(ps, op.profile.name)
  {
    var name := op.profile.name;
    var after := Applied(op, ps);
    if HasName(ps, name) {
      var k := IndexOf(ps, name);
      if j :| 0 <= j < |after| && after[j].name == name {
        RemoveAtIndex(ps, k, j);
      }
      if i, j :| 0 <= i < j < |ps| && ps[i].name == ps[j].name == name {
        RemoveAtIndex(ps, k, j - 1);
      }
    }
  }

  /** Repeating a request leaves the list as it is, except a remove on a list with a second profile
      of the name. */
  lemma RepeatKeepsList(op: Op, ps: seq<Profile>)
    ensures Applied(op, Applied(op, ps)) == Applied(op, ps) <==> !op.remove || AtMostOnce(ps, op.profile.name)
  {
    var name := op.profile.name;
    var after := Applied(op, ps);
    if op.remove {
      RepeatedRemoveIsQuiet(op, ps);
    } else {
      var k := if HasName(ps, name) then IndexOf(ps, name) else |ps|;
      assert after[k].name == name && forall j :: 0 <= j < k ==> after[j].name != name;
      assert IndexOf(after, name) == k;
      assert Assigned(after[k], op.profile) == after[k];
    }
  }

  /** Yet repeating an upsert sends a second write exactly when the stored profile had a field
      that the given one lacks, because assigning keeps that field. */
  lemma RepeatedUpsertWritesIff(op: Op, ps: seq<Profile>)
    requires !op.remove
    ensures Writes(op, Applied(op, ps)) <==>
              Lookup(ps, op.profile.name).Some?
              && !(Lookup(ps, op.profile.name).value.fields.Keys <= op.profile.fields.Keys)
  {
    var name := op.profile.name;
    var after := Applied(op, ps);
    var k := if HasName(ps, name) then IndexOf(ps, name) else |ps|;
    assert after[k].name == name && forall j :: 0 <= j < k ==> after[j].name != name;
    assert IndexOf(after, name) == k;
    if HasName(ps, name) {
      var merged := ps[k].fields + op.profile.fields;
      assert merged.Keys == ps[k].fields.Keys + op.profile.fields.Keys;
      if ps[k].fields.Keys <= op.profile.fields.Keys {
        assert merged == op.profile.fields;
      } else {
        assert merged.Keys != op.profile.fields.Keys;
      }
    }
  }

  /** Such a profile: one with a further field that the request does not carry. */
  lemma RepeatedUpsertCanWrite()
    ensures exists op: Op, ps :: !op.remove && UniqueNames(ps) && Writes(op, Applied(op, ps))
  {
    var profile := Profile("s", map[]);
    var stored := profile.(fields := map["region" := Text("r")]);
    var op, ps := Op(profile, false), [stored];
    assert ps[0].name == "s" && HasName(ps, "s") && IndexOf(ps, "s") == 0;
    assert "region" in stored.fields.Keys && "region" !in profile.fields.Keys;
    RepeatedUpsertWritesIff(op, ps);
  }
}
