/**
 What the serial order of ConfigMap writes means for the profiles in it
 (packages/mco/utils/tps-payload-creator.ts).
 */
module ConfigMapProfiles {
  import opened Options
  import opened S3Profiles
  import opened ConfigMapProtocol

  predicate OnlyClients(log: seq<Entry>) {
    forall k :: 0 <= k < |log| ==> log[k].ByClient?
  }

  predicate Mentions(log: seq<Entry>, name: string) {
    exists k :: 0 <= k < |log| && log[k].ByClient? && log[k].op.profile.name == name
  }

  function Profiles(content: Content): seq<Profile> {
    if content.config.None? then [] else ListOf(content.config.value)
  }

  /** The entry under one name after the requests of that name alone. */
  function ReplayName(entry: Option<Profile>, log: seq<Entry>, name: string): Option<Profile>
    requires OnlyClients(log)
  {
    if log == [] then entry
    else
      var op := log[|log| - 1].op;
      var before := ReplayName(entry, log[..|log| - 1], name);
      if op.profile.name == name then EntryAfter(op, before) else before
  }

  lemma EffectIsApplied(op: Op, content: Content)
    requires content.config.Some?
    ensures Profiles(Effect(op, content)) == Applied(op, Profiles(content))
    ensures Effect(op, content).config.Some?
    ensures Effect(op, content).rest == content.rest
    ensures Effect(op, content).config.value.rest == content.config.value.rest
  {
    if !Writes(op, Profiles(content)) {
      NoWriteNoChange(op, Profiles(content));
    }
  }

  /** Serial requests keep names unique, act on each name as the requests of that name alone
      would, and leave the rest of the document and of the ConfigMap alone. */
  lemma {:induction false} ReplayByName(content: Content, log: seq<Entry>, name: string)
    requires OnlyClients(log) && content.config.Some? && UniqueNames(Profiles(content))
    ensures var end := Replay(content, log);
            && end.config.Some? && end.rest == content.rest
            && end.config.value.rest == content.config.value.rest
            && UniqueNames(Profiles(end))
            && Lookup(Profiles(end), name) == ReplayName(Lookup(Profiles(content), name), log, name)
  {
    if log == [] {
    } else {
      var front, op := log[..|log| - 1], log[|log| - 1].op;
      ReplayByName(content, front, name);
      var before := Replay(content, front);
      EffectIsApplied(op, before);
      AppliedKeepsUnique(op, Profiles(before));
      AppliedLookup(op, Profiles(before), name);
    }
  }

  /** The profiles with a name in the set, in order. */
  function Restricted(ps: seq<Profile>, names: set<string>): seq<Profile> {
    if ps == [] then [] else
      (if ps[0].name in names then [ps[0]] else []) + Restricted(ps[1..], names)
  }

  lemma {:induction false} RestrictedOfOthers(ps: seq<Profile>, name: string, names: set<string>)
    requires name !in names
    ensures Restricted(Others(ps, name), names) == Restricted(ps, names)
  {
    if ps == [] {
    } else {
      RestrictedOfOthers(ps[1..], name, names);
      var rest := Others(ps[1..], name);
      if ps[0].name != name {
        assert ([ps[0]] + rest)[1..] == rest;
      } else {
        assert Others(ps, name) == rest;
      }
    }
  }

  /** Profiles that no request names are all still there, unchanged and in their old order,
      whether or not names are unique. */
  lemma {:induction false} ReplayKeepsUnmentioned(content: Content, log: seq<Entry>, names: set<string>)
    requires OnlyClients(log) && content.config.Some?
    requires forall name :: name in names ==> !Mentions(log, name)
    ensures Replay(content, log).config.Some?
    ensures Restricted(Profiles(Replay(content, log)), names) == Restricted(Profiles(content), names)
  {
    if log == [] {
    } else {
      var front, op := log[..|log| - 1], log[|log| - 1].op;
      forall name | name in names
        ensures !Mentions(front, name)
      {
        assert forall k :: 0 <= k < |front| ==> log[k] == front[k];
      }
      ReplayKeepsUnmentioned(content, front, names);
      var before := Replay(content, front);
      EffectIsApplied(op, before);
      assert op.profile.name !in names by {
        assert log[|log| - 1].op.profile.name == op.profile.name;
      }
      AppliedKeepsOthers(op, Profiles(before));
      RestrictedOfOthers(Profiles(before), op.profile.name, names);
      RestrictedOfOthers(Applied(op, Profiles(before)), op.profile.name, names);
    }
  }

  lemma {:induction false} LogWithoutForeign(s: State, events: seq<Event>)
    requires Possible(s, events) && OnlyClients(s.log)
    requires forall k :: 0 <= k < |events| ==> !events[k].Foreign?
    ensures OnlyClients(Run(s, events).log)
    decreases |events|
  {
    if events == [] {
    } else {
      assert !events[0].Foreign?;
      LogWithoutForeign(After(s, events[0]), events[1..]);
    }
  }

  /** In every run without foreign writes, the profiles that no committed request names are all
      still there, unchanged and in their old order. */
  lemma RunsKeepUnmentioned(start: State, events: seq<Event>, names: set<string>)
    requires Initial(start) && Possible(start, events) && start.store.content.config.Some?
    requires forall k :: 0 <= k < |events| ==> !events[k].Foreign?
    requires forall name :: name in names ==> !Mentions(Run(start, events).log, name)
    ensures Restricted(Profiles(Run(start, events).store.content), names)
         == Restricted(Profiles(start.store.content), names)
  {
    RunsAreSerial(start, events);
    LogWithoutForeign(start, events);
    ReplayKeepsUnmentioned(start.store.content, Run(start, events).log, names);
  }

  /** In every such run names stay unique, and each name fares as its own requests alone would have it. */
  lemma RunsTreatNamesSeparately(start: State, events: seq<Event>, name: string)
    requires Initial(start) && Possible(start, events)
    requires forall k :: 0 <= k < |events| ==> !events[k].Foreign?
    requires start.store.content.config.Some? && UniqueNames(Profiles(start.store.content))
    ensures var s, before := Run(start, events), Profiles(start.store.content);
            && OnlyClients(s.log)
            && UniqueNames(Profiles(s.store.content))
            && Lookup(Profiles(s.store.content), name) == ReplayName(Lookup(before, name), s.log, name)
  {
    RunsAreSerial(start, events);
    LogWithoutForeign(start, events);
    ReplayByName(start.store.content, Run(start, events).log, name);
  }

  // ----- field by field -----

  /** The entry removes the profile of the name, or writes its field. */
  predicate Touches(e: Entry, name: string, field: string) {
    e.ByClient? && e.op.profile.name == name && (e.op.remove || field in e.op.profile.fields)
  }

  /** The field after one more request. */
  lemma EffectOnField(op: Op, content: Content, name: string, field: string)
    requires content.config.Some? && UniqueNames(Profiles(content))
    ensures FieldOf(Profiles(Effect(op, content)), name, field)
         == if op.profile.name != name then FieldOf(Profiles(content), name, field)
            else if op.remove then None
            else if field in op.profile.fields then Some(op.profile.fields[field])
            else FieldOf(Profiles(content), name, field)
  {
    EffectIsApplied(op, content);
    var ps := Profiles(content);
    if op.profile.name == name && !op.remove {
      UpsertFields(op, ps, field);
    } else {
      AppliedLookup(op, ps, name);
      assert Lookup(ps, name).Some? <==> HasName(ps, name);
      assert Lookup(Applied(op, ps), name).Some? <==> HasName(Applied(op, ps), name);
    }
  }

  /** The last entry that touches the field. */
  ghost predicate LastTouch(log: seq<Entry>, k: nat, name: string, field: string) {
    k < |log| && Touches(log[k], name, field) && forall j :: k < j < |log| ==> !Touches(log[j], name, field)
  }

  /** The field after the first `n` entries. */
  function FieldAfter(content: Content, log: seq<Entry>, n: nat, name: string, field: string): Option<Value>
    requires n <= |log|
  {
    FieldOf(Profiles(Replay(content, log[..n])), name, field)
  }

  lemma FieldStep(content: Content, log: seq<Entry>, n: nat, name: string, field: string)
    requires OnlyClients(log) && content.config.Some? && UniqueNames(Profiles(content)) && n < |log|
    ensures FieldAfter(content, log, n + 1, name, field)
         == if !Touches(log[n], name, field) then FieldAfter(content, log, n, name, field)
            else if log[n].op.remove then None
            else Some(log[n].op.profile.fields[field])
  {
    var front := log[..n];
    assert log[..n + 1] == front + [log[n]];
    ReplaySnoc(content, front, log[n]);
    ReplayByName(content, front, name);
    EffectOnField(log[n].op, Replay(content, front), name, field);
  }

  lemma {:induction false} FieldKept(content: Content, log: seq<Entry>, i: nat, n: nat, name: string, field: string)
    requires OnlyClients(log) && content.config.Some? && UniqueNames(Profiles(content)) && i <= n <= |log|
    requires forall j :: i <= j < n ==> !Touches(log[j], name, field)
    ensures FieldAfter(content, log, n, name, field) == FieldAfter(content, log, i, name, field)
  {
    if i == n {
    } else {
      FieldKept(content, log, i, n - 1, name, field);
      FieldStep(content, log, n - 1, name, field);
    }
  }

  /** After requests in a serial order, a field under a name has the value that the last upsert of
      that name which carries it gave it, or none if a remove of that name came later. */
  lemma FieldIsLastWritten(content: Content, log: seq<Entry>, name: string, field: string, k: nat)
    requires OnlyClients(log) && content.config.Some? && UniqueNames(Profiles(content))
    requires LastTouch(log, k, name, field)
    ensures FieldOf(Profiles(Replay(content, log)), name, field)
         == if log[k].op.remove then None else Some(log[k].op.profile.fields[field])
  {
    FieldStep(content, log, k, name, field);
    FieldKept(content, log, k + 1, |log|, name, field);
    assert log[..|log|] == log;
  }

  /** A field that no request touches keeps its value. */
  lemma FieldUntouched(content: Content, log: seq<Entry>, name: string, field: string)
    requires OnlyClients(log) && content.config.Some? && UniqueNames(Profiles(content))
    requires forall k :: 0 <= k < |log| ==> !Touches(log[k], name, field)
    ensures FieldOf(Profiles(Replay(content, log)), name, field) == FieldOf(Profiles(content), name, field)
  {
    FieldKept(content, log, 0, |log|, name, field);
    assert log[..|log|] == log && log[..0] == [];
  }

  /** Both for whole interleaved runs without foreign writes. */
  lemma RunsKeepLastWritten(start: State, events: seq<Event>, name: string, field: string)
    requires Initial(start) && Possible(start, events)
    requires forall k :: 0 <= k < |events| ==> !events[k].Foreign?
    requires start.store.content.config.Some? && UniqueNames(Profiles(start.store.content))
    ensures var s := Run(start, events);
            var after := FieldOf(Profiles(s.store.content), name, field);
            && OnlyClients(s.log)
            && (forall k: nat :: LastTouch(s.log, k, name, field) ==>
                  after == if s.log[k].op.remove then None else Some(s.log[k].op.profile.fields[field]))
            && ((forall k :: 0 <= k < |s.log| ==> !Touches(s.log[k], name, field)) ==>
                  after == FieldOf(Profiles(start.store.content), name, field))
  {
    RunsAreSerial(start, events);
    LogWithoutForeign(start, events);
    var log := Run(start, events).log;
    forall k: nat | LastTouch(log, k, name, field)
      ensures FieldOf(Profiles(Run(start, events).store.content), name, field)
           == if log[k].op.remove then None else Some(log[k].op.profile.fields[field])
    {
      FieldIsLastWritten(start.store.content, log, name, field, k);
    }
    if forall k :: 0 <= k < |log| ==> !Touches(log[k], name, field) {
      FieldUntouched(start.store.content, log, name, field);
    }
  }

  predicate Names(e: Entry, name: string) {
    e.ByClient? && e.op.profile.name == name
  }

  lemma ThereStep(content: Content, log: seq<Entry>, n: nat, name: string)
    requires OnlyClients(log) && content.config.Some? && UniqueNames(Profiles(content)) && n < |log|
    ensures HasName(Profiles(Replay(content, log[..n + 1])), name) <==>
              if Names(log[n], name) then !log[n].op.remove else HasName(Profiles(Replay(content, log[..n])), name)
  {
    var front, op := log[..n], log[n].op;
    assert log[..n + 1] == front + [log[n]];
    ReplaySnoc(content, front, log[n]);
    ReplayByName(content, front, name);
    var before := Replay(content, front);
    EffectIsApplied(op, before);
    AppliedLookup(op, Profiles(before), name);
    assert HasName(Profiles(before), name) <==> Lookup(Profiles(before), name).Some?;
  }

  lemma {:induction false} ThereKept(content: Content, log: seq<Entry>, i: nat, n: nat, name: string)
    requires OnlyClients(log) && content.config.Some? && UniqueNames(Profiles(content)) && i <= n <= |log|
    requires forall j :: i <= j < n ==> !Names(log[j], name)
    ensures HasName(Profiles(Replay(content, log[..n])), name) <==> HasName(Profiles(Replay(content, log[..i])), name)
  {
    if i == n {
    } else {
      ThereKept(content, log, i, n - 1, name);
      ThereStep(content, log, n - 1, name);
    }
  }

  /** A profile is there after an upsert of its name with no request of that name behind it, and not
      there after such a remove. */
  lemma NameIsThereIff(content: Content, log: seq<Entry>, name: string, k: nat)
    requires OnlyClients(log) && content.config.Some? && UniqueNames(Profiles(content))
    requires k < |log| && Names(log[k], name) && forall j :: k < j < |log| ==> !Names(log[j], name)
    ensures HasName(Profiles(Replay(content, log)), name) <==> !log[k].op.remove
  {
    ThereStep(content, log, k, name);
    ThereKept(content, log, k + 1, |log|, name);
    assert log[..|log|] == log;
  }

  // ----- without the Ramen key -----

  /** How many events of a run are this client's. */
  function EventsOf(events: seq<Event>, c: nat): nat {
    if events == [] then 0
    else
      EventsOf(events[..|events| - 1], c)
      + if !events[|events| - 1].Foreign? && events[|events| - 1].c == c then 1 else 0
  }

  /** A client whose every attempt has failed at its read. */
  predicate OnlyFailed(client: Client, op: Op, failures: nat) {
    if failures <= MAX_RETRIES then client == Ready(op, failures)
    else client == GaveUp(op) && failures == MAX_RETRIES + 1
  }

  lemma {:induction false} RunSnoc(s: State, events: seq<Event>)
    requires events != [] && Possible(s, events)
    ensures var n := |events| - 1;
            && Possible(s, events[..n]) && Enabled(Run(s, events[..n]), events[n])
            && Run(s, events) == After(Run(s, events[..n]), events[n])
    decreases |events|
  {
    var n := |events| - 1;
    if n == 0 {
      assert events[..0] == [];
      assert events[1..] == [];
    } else {
      RunSnoc(After(s, events[0]), events[1..]);
      assert events[1..][..n - 1] == events[..n][1..];
    }
  }

  /** If the ConfigMap lacks the key, every call fails after as many attempts as any: nothing is
      written, and each event of a client is one more failed attempt. */
  lemma {:induction false} MissingKeyFailsAll(start: State, events: seq<Event>)
    requires Initial(start) && Possible(start, events) && start.store.content.config.None?
    requires forall k :: 0 <= k < |events| ==> !events[k].Foreign?
    ensures var s := Run(start, events);
            && s.store == start.store && s.log == [] && |s.clients| == |start.clients|
            && forall c :: 0 <= c < |s.clients| ==> OnlyFailed(s.clients[c], start.clients[c].op, EventsOf(events, c))
  {
    if events == [] {
    } else {
      var n := |events| - 1;
      RunSnoc(start, events);
      MissingKeyFailsAll(start, events[..n]);
      var before, e := Run(start, events[..n]), events[n];
      assert !e.Foreign?;
      PlanIs(before.clients[e.c].op, before.store);
    }
  }
}
