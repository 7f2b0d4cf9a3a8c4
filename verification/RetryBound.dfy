/**
 How many concurrent callers of `updateRamenHubOperatorConfig` its three retries serve
 (packages/mco/utils/tps-payload-creator.ts, packages/odf/utils/retry.ts).
 */
module RetryBound {
  import opened Options
  import opened S3Profiles
  import opened ConfigMapProtocol
  import opened ConfigMapProfiles

  // ----- how far three retries go -----

  /** No request is lost on the way and nobody else writes: attempts fail by conflict only. */
  predicate Faultless(events: seq<Event>) {
    forall k :: 0 <= k < |events| ==> events[k].Read? || events[k].Write?
  }

  function DoneCount(clients: seq<Client>): nat {
    if clients == [] then 0 else DoneCount(clients[1..]) + if clients[0].Done? then 1 else 0
  }

  lemma {:induction false} DoneCountUpdate(clients: seq<Client>, c: nat, client: Client)
    requires c < |clients| && !clients[c].Done?
    ensures DoneCount(clients[c := client]) == DoneCount(clients) + if client.Done? then 1 else 0
  {
    if c > 0 {
      assert clients[c := client][1..] == clients[1..][c - 1 := client];
      DoneCountUpdate(clients[1..], c - 1, client);
    } else {
      assert clients[c := client][1..] == clients[1..];
    }
  }

  lemma {:induction false} DoneCountAtMost(clients: seq<Client>)
    ensures DoneCount(clients) <= |clients|
  {
    if clients == [] {
    } else {
      DoneCountAtMost(clients[1..]);
    }
  }

  lemma {:induction false} DoneCountBound(clients: seq<Client>, c: nat)
    requires c < |clients| && !clients[c].Done?
    ensures DoneCount(clients) < |clients|
  {
    if c > 0 {
      DoneCountBound(clients[1..], c - 1);
    } else {
      DoneCountAtMost(clients[1..]);
    }
  }

  predicate PacedClient(v: nat, version: nat, client: Client) {
    match client
    case Ready(_, attempt) => attempt <= MAX_RETRIES && v + attempt <= version
    case Holding(_, attempt, next) =>
      attempt <= MAX_RETRIES && v + attempt <= next.version <= version && next.content.config.Some?
    case Done(_) => true
    case GaveUp(_) => v + MAX_RETRIES + 1 <= version
  }

  /** Each failed attempt of a client was overtaken by a commit of its own, and each commit
      settles one client. */
  ghost predicate Paced(v: nat, s: State) {
    && s.store.content.config.Some?
    && v <= s.store.version <= v + DoneCount(s.clients)
    && forall c :: 0 <= c < |s.clients| ==> PacedClient(v, s.store.version, s.clients[c])
  }

  lemma AfterPaced(v: nat, s: State, e: Event)
    requires Paced(v, s) && Enabled(s, e) && (e.Read? || e.Write?)
    ensures Paced(v, After(s, e))
  {
    var s' := After(s, e);
    DoneCountUpdate(s.clients, e.c, s'.clients[e.c]);
  }

  lemma {:induction false} RunPaced(v: nat, s: State, events: seq<Event>)
    requires Paced(v, s) && Possible(s, events) && Faultless(events)
    ensures Paced(v, Run(s, events))
    decreases |events|
  {
    if events == [] {
    } else {
      assert events[0].Read? || events[0].Write?;
      AfterPaced(v, s, events[0]);
      RunPaced(v, After(s, events[0]), events[1..]);
    }
  }

  ghost predicate SomeoneGaveUp(s: State) {
    exists c :: 0 <= c < |s.clients| && s.clients[c].GaveUp?
  }

  /** A run from fresh callers in which attempts fail by conflict only. */
  ghost predicate FaultlessRun(start: State, events: seq<Event>) {
    Initial(start) && start.store.content.config.Some? && Possible(start, events) && Faultless(events)
  }

  /** A client gives up only after at least four commits of others. Up to four concurrent
      callers therefore all succeed, whatever the interleaving. */
  lemma FewClientsAllSucceed(start: State, events: seq<Event>)
    requires FaultlessRun(start, events) && |start.clients| <= 4
    ensures |Run(start, events).clients| == |start.clients| && !SomeoneGaveUp(Run(start, events))
  {
    RunPaced(start.store.version, start, events);
    RunConsistent(start, start, events);
    var s := Run(start, events);
    forall c | 0 <= c < |s.clients|
      ensures !s.clients[c].GaveUp?
    {
      if s.clients[c].GaveUp? {
        DoneCountBound(s.clients, c);
      }
    }
  }

  /** No client has anything left to do. */
  ghost predicate Settled(s: State) {
    forall c :: 0 <= c < |s.clients| ==> !Enabled(s, Read(c)) && !Enabled(s, Write(c))
  }

  /** So when their calls have settled, all of them have been committed, each exactly once. */
  lemma FewClientsAllDone(start: State, events: seq<Event>)
    requires FaultlessRun(start, events) && |start.clients| <= 4
    requires Settled(Run(start, events))
    ensures var s := Run(start, events);
            && |s.clients| == |start.clients|
            && forall c :: 0 <= c < |s.clients| ==> s.clients[c].Done? && Occurrences(s.log, c) == 1
  {
    FewClientsAllSucceed(start, events);
    RunsAreSerial(start, events);
    var s := Run(start, events);
    forall c | 0 <= c < |s.clients|
      ensures s.clients[c].Done?
    {
      assert !Enabled(s, Read(c)) && !Enabled(s, Write(c));
    }
  }

  // ----- calls settle -----

  /** The most events a client can still have: two for each attempt left. */
  function EventsLeft(client: Client): int {
    match client
    case Ready(_, attempt) => 2 * (MAX_RETRIES + 1 - attempt)
    case Holding(_, attempt, _) => 2 * (MAX_RETRIES + 1 - attempt) - 1
    case Done(_) => 0
    case GaveUp(_) => 0
  }

  function AllEventsLeft(clients: seq<Client>): int {
    if clients == [] then 0 else EventsLeft(clients[0]) + AllEventsLeft(clients[1..])
  }

  lemma {:induction false} EventsLeftUpdate(clients: seq<Client>, c: nat, client: Client)
    requires c < |clients|
    ensures AllEventsLeft(clients[c := client])
         == AllEventsLeft(clients) - EventsLeft(clients[c]) + EventsLeft(client)
  {
    if c == 0 {
      assert clients[c := client][1..] == clients[1..];
    } else {
      assert clients[c := client][1..] == clients[1..][c - 1 := client];
      EventsLeftUpdate(clients[1..], c - 1, client);
    }
  }

  ghost predicate WithinRetries(s: State) {
    forall c :: 0 <= c < |s.clients| && (s.clients[c].Ready? || s.clients[c].Holding?) ==>
      s.clients[c].attempt <= MAX_RETRIES
  }

  lemma {:induction false} SomeEventsLeft(clients: seq<Client>)
    requires forall c :: 0 <= c < |clients| ==> EventsLeft(clients[c]) >= 0
    ensures AllEventsLeft(clients) >= 0
  {
    if clients == [] {
    } else {
      assert EventsLeft(clients[0]) >= 0;
      SomeEventsLeft(clients[1..]);
    }
  }

  /** An event moves its client on, and nobody else. */
  lemma EventMoves(s: State, e: Event)
    requires Enabled(s, e) && !e.Foreign? && s.clients[e.c].attempt <= MAX_RETRIES
    ensures |After(s, e).clients| == |s.clients|
    ensures After(s, e).clients == s.clients[e.c := After(s, e).clients[e.c]]
    ensures EventsLeft(After(s, e).clients[e.c]) < EventsLeft(s.clients[e.c])
  {
  }

  lemma AfterHasLess(s: State, e: Event)
    requires WithinRetries(s) && Enabled(s, e) && !e.Foreign?
    ensures WithinRetries(After(s, e))
    ensures AllEventsLeft(After(s, e).clients) < AllEventsLeft(s.clients)
  {
    EventMoves(s, e);
    EventsLeftUpdate(s.clients, e.c, After(s, e).clients[e.c]);
  }

  /** The number of events that are not writes by other programs. */
  function OwnEvents(events: seq<Event>): nat {
    if events == [] then 0 else OwnEvents(events[1..]) + if events[0].Foreign? then 0 else 1
  }

  lemma {:induction false} RunHasLess(s: State, events: seq<Event>)
    requires WithinRetries(s) && Possible(s, events)
    ensures OwnEvents(events) <= AllEventsLeft(s.clients)
    decreases |events|
  {
    if events == [] {
      forall c | 0 <= c < |s.clients|
        ensures EventsLeft(s.clients[c]) >= 0
      {
        assert s.clients[c].Ready? || s.clients[c].Holding? ==> s.clients[c].attempt <= MAX_RETRIES;
      }
      SomeEventsLeft(s.clients);
    } else {
      if events[0].Foreign? {
        assert After(s, events[0]).clients == s.clients;
      } else {
        AfterHasLess(s, events[0]);
      }
      RunHasLess(After(s, events[0]), events[1..]);
    }
  }

  lemma {:induction false} FreshEventsLeft(clients: seq<Client>)
    requires forall c :: 0 <= c < |clients| ==> clients[c].Ready? && clients[c].attempt == 0
    ensures AllEventsLeft(clients) == 2 * (MAX_RETRIES + 1) * |clients|
  {
    if clients == [] {
    } else {
      assert clients[0].Ready? && clients[0].attempt == 0;
      FreshEventsLeft(clients[1..]);
    }
  }

  /** Every call settles: whatever fails and whoever else writes, the clients have at most eight
      events each. */
  lemma RunsEnd(start: State, events: seq<Event>)
    requires Initial(start) && Possible(start, events)
    ensures OwnEvents(events) <= 8 * |start.clients|
  {
    RunHasLess(start, events);
    FreshEventsLeft(start.clients);
  }

  // ----- and no further -----

  lemma {:induction false} RunAppend(s: State, first: seq<Event>, then_: seq<Event>)
    requires Possible(s, first) && Possible(Run(s, first), then_)
    ensures Possible(s, first + then_) && Run(s, first + then_) == Run(Run(s, first), then_)
    decreases |first|
  {
    if first == [] {
      assert first + then_ == then_;
    } else {
      assert (first + then_)[1..] == first[1..] + then_;
      RunAppend(After(s, first[0]), first[1..], then_);
    }
  }

  lemma RunCons(s: State, e: Event, rest: seq<Event>)
    requires Enabled(s, e) && Possible(After(s, e), rest)
    ensures Possible(s, [e] + rest) && Run(s, [e] + rest) == Run(After(s, e), rest)
  {
    assert ([e] + rest)[1..] == rest;
  }

  /** The request of client `i`: an upsert under a name of its own. */
  function Request(i: nat): Op {
    Op(Profile(seq(i, _ => 'x'), map[]), false)
  }

  /** Clients `0..k` have committed and client `MAX_RETRIES + 1` has lost `k` races; further clients
      are left alone. */
  ghost predicate Overtaken(s: State, k: nat) {
    && k <= MAX_RETRIES + 1 < |s.clients|
    && s.store.content.config.Some?
    && (forall p :: p in Profiles(s.store.content) ==> |p.name| < k)
    && (forall i :: k <= i <= MAX_RETRIES ==> s.clients[i] == Ready(Request(i), 0))
    && s.clients[MAX_RETRIES + 1]
       == if k <= MAX_RETRIES then Ready(Request(MAX_RETRIES + 1), k) else GaveUp(Request(MAX_RETRIES + 1))
  }

  function Race(k: nat): seq<Event> {
    [Read(MAX_RETRIES + 1), Read(k), Write(k), Write(MAX_RETRIES + 1)]
  }

  lemma RequestIsNew(s: State, k: nat, i: nat)
    requires Overtaken(s, k) && k <= i
    ensures var content := Effect(Request(i), s.store.content);
            && Planned(Request(i), s.store) == Puts(ConfigMap(s.store.version, content))
            && content.config.Some?
            && Profiles(content) == Profiles(s.store.content) + [Request(i).profile]
  {
    assert |Request(i).profile.name| == i;
    assert !HasName(Profiles(s.store.content), Request(i).profile.name);
  }

  lemma FourEvents(s: State, s1: State, s2: State, s3: State, a: Event, b: Event, c: Event, d: Event)
    requires Enabled(s, a) && s1 == After(s, a)
    requires Enabled(s1, b) && s2 == After(s1, b)
    requires Enabled(s2, c) && s3 == After(s2, c)
    requires Enabled(s3, d)
    ensures Possible(s, [a, b, c, d]) && Run(s, [a, b, c, d]) == After(s3, d)
  {
    RunCons(s3, d, []);
    RunCons(s2, c, [d]);
    RunCons(s1, b, [c, d]);
    RunCons(s, a, [b, c, d]);
  }

  lemma OneRace(s: State, k: nat)
    requires Overtaken(s, k) && k <= MAX_RETRIES
    ensures Possible(s, Race(k)) && Overtaken(Run(s, Race(k)), k + 1)
  {
    var last := MAX_RETRIES + 1;
    RequestIsNew(s, k, last);
    RequestIsNew(s, k, k);
    var s1 := After(s, Read(last));
    var s2 := After(s1, Read(k));
    var s3 := After(s2, Write(k));
    FourEvents(s, s1, s2, s3, Read(last), Read(k), Write(k), Write(last));
    var s4 := After(s3, Write(last));
    forall p | p in Profiles(s4.store.content)
      ensures |p.name| < k + 1
    {
    }
  }

  lemma {:induction false} Races(s: State, k: nat) returns (events: seq<Event>)
    requires Overtaken(s, k)
    ensures Faultless(events) && Possible(s, events)
    ensures Overtaken(Run(s, events), MAX_RETRIES + 1)
    decreases MAX_RETRIES + 1 - k
  {
    if k == MAX_RETRIES + 1 {
      events := [];
    } else {
      OneRace(s, k);
      var rest := Races(Run(s, Race(k)), k + 1);
      RunAppend(s, Race(k), rest);
      events := Race(k) + rest;
    }
  }

  /** Any more callers can be too many: one may lose every race, while those beyond the fifth wait. */
  lemma ManyClientsMayFail(n: nat) returns (start: State, events: seq<Event>)
    requires n > 4
    ensures |start.clients| == n && FaultlessRun(start, events) && SomeoneGaveUp(Run(start, events))
  {
    var content := Content(Some(RamenConfig(None, map[])), map[]);
    start := State(ConfigMap(0, content), seq(n, i requires i >= 0 => Ready(Request(i), 0)), []);
    events := Races(start, 0);
    assert Run(start, events).clients[MAX_RETRIES + 1].GaveUp?;
  }

  /** Four is the exact bound: `n` concurrent callers are sure to succeed if and only if `n` is at
      most the number of attempts. */
  lemma SureToSucceedIff(n: nat)
    ensures (forall start, events :: FaultlessRun(start, events) && |start.clients| == n ==>
               !SomeoneGaveUp(Run(start, events)))
       <==> n <= 4
  {
    if n <= MAX_RETRIES + 1 {
      forall start, events | FaultlessRun(start, events) && |start.clients| == n
        ensures !SomeoneGaveUp(Run(start, events))
      {
        FewClientsAllSucceed(start, events);
      }
    } else {
      var start, events := ManyClientsMayFail(n);
    }
  }
}
