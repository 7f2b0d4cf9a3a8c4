/**
 Any number of clients that read the ConfigMap, change it and write it back with the version they
 read (packages/mco/utils/tps-payload-creator.ts), each under retry (packages/odf/utils/retry.ts).
 The code of an attempt runs undisturbed between its awaits, so an attempt is two events, a read
 and a write, with events of other clients in between.
 */
module ConfigMapProtocol {
  import opened S3Profiles

  /** `maxRetries` of `updateRamenHubOperatorConfig`. */
  const MAX_RETRIES: nat := 3

  /** The server's object after an accepted write. */
  function Stored(store: ConfigMap, content: Content): ConfigMap {
    ConfigMap(store.version + 1, content)
  }

  /** A client before a read, between read and write, or after its call has settled. */
  datatype Client =
    | Ready(op: Op, attempt: nat)
    | Holding(op: Op, attempt: nat, next: ConfigMap)
    | Done(op: Op)
    | GaveUp(op: Op)

  /** The order in which effects take place, including writes by other programs. */
  datatype Entry = ByClient(c: nat, op: Op) | ByOther(content: Content)

  datatype State = State(store: ConfigMap, clients: seq<Client>, log: seq<Entry>)

  datatype Event =
    | Read(c: nat)            // the read succeeds; the attempt may end here
    | ReadFails(c: nat)
    | Write(c: nat)           // the write reaches the server, which may refuse it
    | WriteFails(c: nat)
    | Foreign(content: Content)

  /** A failed attempt is retried unless it was the last one. */
  function Failed(client: Client): Client
    requires client.Ready? || client.Holding?
  {
    if client.attempt < MAX_RETRIES then Ready(client.op, client.attempt + 1) else GaveUp(client.op)
  }

  predicate Enabled(s: State, e: Event) {
    match e
    case Read(c) => c < |s.clients| && s.clients[c].Ready?
    case ReadFails(c) => c < |s.clients| && s.clients[c].Ready?
    case Write(c) => c < |s.clients| && s.clients[c].Holding?
    case WriteFails(c) => c < |s.clients| && s.clients[c].Holding?
    case Foreign(_) => true
  }

  function After(s: State, e: Event): State
    requires Enabled(s, e)
  {
    match e
    case Read(c) =>
      var client := s.clients[c];
      (match Planned(client.op, s.store)
       case Throws => s.(clients := s.clients[c := Failed(client)])
       case Returns => s.(clients := s.clients[c := Done(client.op)], log := s.log + [ByClient(c, client.op)])
       case Puts(next) => s.(clients := s.clients[c := Holding(client.op, client.attempt, next)]))
    case ReadFails(c) => s.(clients := s.clients[c := Failed(s.clients[c])])
    case Write(c) =>
      var client := s.clients[c];
      if client.next.version == s.store.version then
        State(Stored(s.store, client.next.content),
              s.clients[c := Done(client.op)],
              s.log + [ByClient(c, client.op)])
      else s.(clients := s.clients[c := Failed(client)])
    case WriteFails(c) => s.(clients := s.clients[c := Failed(s.clients[c])])
    case Foreign(content) => s.(store := Stored(s.store, content), log := s.log + [ByOther(content)])
  }

  predicate Possible(s: State, events: seq<Event>)
    decreases |events|
  {
    events == [] || (Enabled(s, events[0]) && Possible(After(s, events[0]), events[1..]))
  }

  function Run(s: State, events: seq<Event>): State
    requires Possible(s, events)
    decreases |events|
  {
    if events == [] then s else Run(After(s, events[0]), events[1..])
  }

  predicate Initial(s: State) {
    s.log == [] && forall c :: 0 <= c < |s.clients| ==> s.clients[c].Ready? && s.clients[c].attempt == 0
  }

  // ----- every run is a sequence of indivisible effects -----

  function EntryEffect(e: Entry, content: Content): Content {
    if e.ByClient? then Effect(e.op, content) else e.content
  }

  /** The entries of the log applied one after another. */
  function Replay(content: Content, log: seq<Entry>): Content {
    if log == [] then content else EntryEffect(log[|log| - 1], Replay(content, log[..|log| - 1]))
  }

  /** How often client `c` appears in the log. */
  function Occurrences(log: seq<Entry>, c: nat): nat {
    if log == [] then 0
    else
      var e := log[|log| - 1];
      Occurrences(log[..|log| - 1], c) + if e.ByClient? && e.c == c then 1 else 0
  }

  /** What holds after any number of events from `start`. */
  ghost predicate Consistent(start: State, s: State) {
    && |s.clients| == |start.clients|
    && (forall c :: 0 <= c < |s.clients| ==> s.clients[c].op == start.clients[c].op)
    && s.store.content == Replay(start.store.content, s.log)
    && s.store.version >= start.store.version
    && (forall c :: 0 <= c < |s.clients| && s.clients[c].Holding? ==>
          var next := s.clients[c].next;
          && next.version <= s.store.version
          && (next.version == s.store.version ==> next.content == Effect(s.clients[c].op, s.store.content)))
    && (forall c :: 0 <= c < |s.clients| ==> Occurrences(s.log, c) == if s.clients[c].Done? then 1 else 0)
    && (forall k :: 0 <= k < |s.log| && s.log[k].ByClient? ==>
          s.log[k].c < |s.clients| && s.log[k].op == s.clients[s.log[k].c].op)
  }

  lemma ReplaySnoc(content: Content, log: seq<Entry>, e: Entry)
    ensures Replay(content, log + [e]) == EntryEffect(e, Replay(content, log))
    ensures forall c: nat ::
              Occurrences(log + [e], c) == Occurrences(log, c) + (if e.ByClient? && e.c == c then 1 else 0)
  {
    assert (log + [e])[..|log|] == log;
  }

  /** A step that commits nothing, only moves client `c` on. */
  lemma MovedConsistent(start: State, s: State, c: nat, client: Client)
    requires Consistent(start, s) && c < |s.clients| && !s.clients[c].Done? && !client.Done?
    requires client.op == s.clients[c].op
    requires client.Holding? ==>
               client.next.version == s.store.version && client.next.content == Effect(client.op, s.store.content)
    ensures Consistent(start, s.(clients := s.clients[c := client]))
  {
  }

  /** A step that takes effect on the store as the request would, and settles client `c`. */
  lemma CommittedConsistent(start: State, s: State, c: nat, store: ConfigMap)
    requires Consistent(start, s) && c < |s.clients| && !s.clients[c].Done?
    requires store.content == Effect(s.clients[c].op, s.store.content)
    requires store.version > s.store.version || store == s.store
    ensures var op := s.clients[c].op;
            Consistent(start, State(store, s.clients[c := Done(op)], s.log + [ByClient(c, op)]))
  {
    ReplaySnoc(start.store.content, s.log, ByClient(c, s.clients[c].op));
  }

  lemma AfterConsistent(start: State, s: State, e: Event)
    requires Consistent(start, s) && Enabled(s, e)
    ensures Consistent(start, After(s, e))
  {
    match e {
      case Read(c) =>
        var client := s.clients[c];
        match Planned(client.op, s.store) {
          case Throws => MovedConsistent(start, s, c, Failed(client));
          case Returns => CommittedConsistent(start, s, c, s.store);
          case Puts(next) => MovedConsistent(start, s, c, Holding(client.op, client.attempt, next));
        }
      case ReadFails(c) => MovedConsistent(start, s, c, Failed(s.clients[c]));
      case Write(c) =>
        var client := s.clients[c];
        if client.next.version == s.store.version {
          CommittedConsistent(start, s, c, Stored(s.store, client.next.content));
        } else {
          MovedConsistent(start, s, c, Failed(client));
        }
      case WriteFails(c) => MovedConsistent(start, s, c, Failed(s.clients[c]));
      case Foreign(content) =>
        ReplaySnoc(start.store.content, s.log, ByOther(content));
    }
  }

  lemma {:induction false} RunConsistent(start: State, s: State, events: seq<Event>)
    requires Consistent(start, s) && Possible(s, events)
    ensures Consistent(start, Run(s, events))
    decreases |events|
  {
    if events == [] {
    } else {
      AfterConsistent(start, s, events[0]);
      RunConsistent(start, After(s, events[0]), events[1..]);
    }
  }

  /** In every interleaving the stored document is the result of the requests applied one after
      another in the order of their commits; a request whose call succeeded is in that order
      exactly once, and one whose call failed or is still pending is not in it. */
  lemma RunsAreSerial(start: State, events: seq<Event>)
    requires Initial(start) && Possible(start, events)
    ensures var s := Run(start, events);
            && s.store.content == Replay(start.store.content, s.log)
            && |s.clients| == |start.clients|
            && (forall c :: 0 <= c < |s.clients| ==>
                  && s.clients[c].op == start.clients[c].op
                  && Occurrences(s.log, c) == if s.clients[c].Done? then 1 else 0)
            && (forall k :: 0 <= k < |s.log| && s.log[k].ByClient? ==>
                  s.log[k].c < |start.clients| && s.log[k].op == start.clients[s.log[k].c].op)
  {
    RunConsistent(start, start, events);
  }
}
