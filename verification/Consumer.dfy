/**
 The Kafka consumer: what one message does to the counters, the payload tracker,
 the dead letter queue and the storage, and the accounts of a whole claim.
 */
module Consumer {
  import opened Options
  import opened Schema
  import opened Protocol
  import OcpStorage
  import Runs

  // ---------------------------------------------------------------------------
  // The structure of a report
  // ---------------------------------------------------------------------------

  datatype Json =
    | JsonNull
    | JsonBool(b: bool)
    | JsonNumber(n: real)
    | JsonString(s: string)
    | JsonArray(items: seq<Json>)
    | JsonObject(fields: map<string, Json>)

  /** The raw data of a top-level attribute: none, not JSON, or a JSON value. */
  datatype Attribute = NoData | Invalid | Parsed(value: Json)

  type Report = map<string, Attribute>

  datatype Structure = WellFormed | Empty | Missing(keys: seq<string>)

  const EXPECTED_KEYS: seq<string> := ["fingerprints", "reports", "system"]
  const METADATA := "analysis_metadata"
  const SYSTEM := "system"
  const HOSTNAME := "hostname"

  /** JSONAttributeChecker.IsEmpty: no data, or an array or object without content; null is not empty. */
  predicate ContentIsEmpty(a: Attribute)
  {
    match a
    case NoData => true
    case Parsed(JsonArray(items)) => items == []
    case Parsed(JsonObject(fields)) => fields == map[]
    case _ => false
  }

  /** verifySystemAttributeIsEmpty: decodes into a structure with a host name, which must be absent or empty. */
  predicate SystemIsEmpty(a: Attribute)
  {
    match a
    case Parsed(JsonNull) => true
    case Parsed(JsonObject(fields)) => HOSTNAME in fields ==> fields[HOSTNAME] in {JsonNull, JsonString("")}
    case _ => false
  }

  predicate IsEmptyAttribute(k: string, a: Attribute)
  {
    k == METADATA || if k == SYSTEM then SystemIsEmpty(a) else ContentIsEmpty(a)
  }

  function MissingKeys(r: Report, keys: seq<string>): seq<string>
  {
    if keys == [] then [] else
      MissingKeys(r, keys[..|keys| - 1]) + if keys[|keys| - 1] in r then [] else [keys[|keys| - 1]]
  }

  /** All expected keys present; or else nothing but metadata has content; or else malformed. */
  function StructureOf(r: Report): Structure
  {
    if forall k :: k in EXPECTED_KEYS ==> k in r then WellFormed
    else if forall k :: k in r ==> IsEmptyAttribute(k, r[k]) then Empty
    else Missing(MissingKeys(r, EXPECTED_KEYS))
  }

  /** isReportWithEmptyAttributes, over the attributes in any order. */
  method IsReportWithEmptyAttributes(r: Report) returns (empty: bool)
    ensures empty <==> forall k :: k in r && k != METADATA ==>
                         if k == SYSTEM then SystemIsEmpty(r[k]) else ContentIsEmpty(r[k])
  {
    var pending := r.Keys;
    while pending != {}
      invariant pending <= r.Keys
      invariant forall k :: k in r && k !in pending ==> IsEmptyAttribute(k, r[k])
      decreases |pending|
    {
      var k :| k in pending;
      pending := pending - {k};
      if k == METADATA {
        continue;
      }
      if k == SYSTEM {
        if !SystemIsEmpty(r[k]) {
          return false;
        }
        continue;
      }
      if !ContentIsEmpty(r[k]) {
        return false;
      }
    }
    empty := true;
  }

  lemma {:induction false} MissingNone(r: Report, keys: seq<string>)
    ensures |MissingKeys(r, keys)| <= |keys|
    ensures MissingKeys(r, keys) == [] <==> forall i :: 0 <= i < |keys| ==> keys[i] in r
    ensures forall k :: k in MissingKeys(r, keys) <==> k in keys && k !in r
  {
    if keys != [] {
      var n := |keys| - 1;
      assert keys == keys[..n] + [keys[n]];
      MissingNone(r, keys[..n]);
      assert forall i :: 0 <= i < n ==> keys[..n][i] == keys[i];
    }
  }

  predicate HasExpectedKeys(r: Report)
  {
    "fingerprints" in r && "reports" in r && "system" in r
  }

  function AbsentKeys(r: Report): seq<string>
  {
    (if "fingerprints" in r then [] else ["fingerprints"]) + (if "reports" in r then [] else ["reports"])
    + (if "system" in r then [] else ["system"])
  }

  /** An attribute without content: no data, [] or {}. */
  predicate IsBlank(a: Attribute)
  {
    a == NoData || a == Parsed(JsonArray([])) || a == Parsed(JsonObject(map[]))
  }

  /** A system attribute without a host name: null, or an object whose host name is absent, null or empty. */
  ghost predicate IsBlankSystem(a: Attribute)
  {
    || a == Parsed(JsonNull)
    || (exists fields :: a == Parsed(JsonObject(fields))
                         && ("hostname" !in fields || fields["hostname"] == JsonNull || fields["hostname"] == JsonString("")))
  }

  ghost predicate HasNoContent(r: Report)
  {
    forall k :: k in r && k != "analysis_metadata" ==> if k == "system" then IsBlankSystem(r[k]) else IsBlank(r[k])
  }

  lemma AttributeMeaning(a: Attribute)
    ensures ContentIsEmpty(a) <==> IsBlank(a)
    ensures SystemIsEmpty(a) <==> IsBlankSystem(a)
  {
    if a.Parsed? && a.value.JsonObject? {
      assert a == Parsed(JsonObject(a.value.fields));
    }
  }

  /** The three verdicts on a report's structure, over its raw attributes. */
  lemma StructureMeaning(r: Report)
    ensures StructureOf(r) == WellFormed <==> HasExpectedKeys(r)
    ensures StructureOf(r) == Empty <==> !HasExpectedKeys(r) && HasNoContent(r)
    ensures StructureOf(r).Missing? ==> StructureOf(r).keys == AbsentKeys(r)
  {
    assert (forall k :: k in EXPECTED_KEYS ==> k in r) <==> HasExpectedKeys(r) by {
      assert EXPECTED_KEYS[0] == "fingerprints" && EXPECTED_KEYS[1] == "reports" && EXPECTED_KEYS[2] == "system";
    }
    forall k | k in r ensures IsEmptyAttribute(k, r[k]) <==>
                              k == "analysis_metadata" || if k == "system" then IsBlankSystem(r[k]) else IsBlank(r[k]) {
      AttributeMeaning(r[k]);
    }
    MissingAmongThree(r);
  }

  lemma MissingAmongThree(r: Report)
    ensures MissingKeys(r, EXPECTED_KEYS) == AbsentKeys(r)
  {
    var one, two, all := ["fingerprints"], ["fingerprints", "reports"], EXPECTED_KEYS;
    assert all[..2] == two && two[..1] == one && one[..0] == [];
    assert MissingKeys(r, []) == [];
    assert MissingKeys(r, one) == MissingKeys(r, []) + if "fingerprints" in r then [] else ["fingerprints"];
    assert MissingKeys(r, two) == MissingKeys(r, one) + if "reports" in r then [] else ["reports"];
  }

  /** checkReportStructure. */
  method CheckReportStructure(r: Report) returns (structure: Structure)
    ensures structure == StructureOf(r)
    ensures structure == WellFormed <==> HasExpectedKeys(r)
    ensures structure == Empty <==> !HasExpectedKeys(r) && HasNoContent(r)
    ensures structure.Missing? <==> !HasExpectedKeys(r) && !HasNoContent(r)
    ensures structure.Missing? ==> structure.keys == AbsentKeys(r)
  {
    StructureMeaning(r);
    var keysNotFound: seq<string> := [];
    var keysFound := 0;
    for i := 0 to |EXPECTED_KEYS|
      invariant keysNotFound == MissingKeys(r, EXPECTED_KEYS[..i])
      invariant keysFound + |keysNotFound| == i
    {
      assert EXPECTED_KEYS[..i + 1][..i] == EXPECTED_KEYS[..i];
      if EXPECTED_KEYS[i] !in r {
        keysNotFound := keysNotFound + [EXPECTED_KEYS[i]];
      } else {
        keysFound := keysFound + 1;
      }
    }
    assert EXPECTED_KEYS[..|EXPECTED_KEYS|] == EXPECTED_KEYS;
    MissingNone(r, EXPECTED_KEYS);
    if keysFound == |EXPECTED_KEYS| {
      return WellFormed;
    }
    assert exists k :: k in EXPECTED_KEYS && k !in r;
    var isEmpty := |r| == 0;
    if !isEmpty {
      isEmpty := IsReportWithEmptyAttributes(r);
    }
    if isEmpty {
      return Empty;
    }
    if |keysNotFound| != 0 {
      return Missing(keysNotFound);
    }
    return WellFormed;
  }

  // ---------------------------------------------------------------------------
  // Messages and their environment
  // ---------------------------------------------------------------------------

  /** A message that deserialised: the report's attributes, whether its content parses, and the decoded message. */
  datatype Decoded = Decoded(report: Report, contentParses: bool, message: Message)

  /** A Kafka message; the request ID may be present even if deserialisation fails. */
  datatype KafkaMessage = KafkaMessage(value: string, requestId: string, decoded: Option<Decoded>)

  /** `allowlist` is None when no list is configured. */
  datatype Configuration = Configuration(allowlistEnabled: bool, allowlist: Option<set<OrgId>>)

  datatype Status = Received | MessageProcessed | Success | Error

  datatype Tracked = Tracked(requestId: string, status: Status)

  /** The storage environment of one message, and which of its sends succeed. */
  datatype MessageEnv = MessageEnv(store: Env, trackerUp: Status -> bool, deadLetterUp: bool)

  datatype Kind = Malformed | EmptyReport | NotAllowed | ToStore

  predicate OrganizationAllowed(config: Configuration, org: OrgId)
  {
    !config.allowlistEnabled || (config.allowlist.Some? && org in config.allowlist.value)
  }

  /** What becomes of a message before the storage is involved. */
  function KindOf(config: Configuration, msg: KafkaMessage): Kind
  {
    if msg.decoded.None? then Malformed
    else if StructureOf(msg.decoded.value.report) == Empty then EmptyReport
    else if StructureOf(msg.decoded.value.report) != WellFormed || !msg.decoded.value.contentParses then Malformed
    else if !OrganizationAllowed(config, msg.decoded.value.message.org) then NotAllowed
    else ToStore
  }

  /** What becomes of a message, over its raw parts and the configuration. */
  lemma KindMeaning(config: Configuration, msg: KafkaMessage)
    ensures KindOf(config, msg) == EmptyReport <==>
            msg.decoded.Some? && !HasExpectedKeys(msg.decoded.value.report) && HasNoContent(msg.decoded.value.report)
    ensures KindOf(config, msg) == NotAllowed <==>
            && msg.decoded.Some? && HasExpectedKeys(msg.decoded.value.report) && msg.decoded.value.contentParses
            && config.allowlistEnabled
            && (config.allowlist.None? || msg.decoded.value.message.org !in config.allowlist.value)
    ensures KindOf(config, msg) == ToStore <==>
            && msg.decoded.Some? && HasExpectedKeys(msg.decoded.value.report) && msg.decoded.value.contentParses
            && (config.allowlistEnabled ==>
                  config.allowlist.Some? && msg.decoded.value.message.org in config.allowlist.value)
  {
    if msg.decoded.Some? {
      StructureMeaning(msg.decoded.value.report);
    }
  }

  /** The tracker records of one status, when it can be sent. */
  function Track(tracker: bool, msg: KafkaMessage, up: Status -> bool, status: Status): seq<Tracked>
  {
    if tracker && msg.requestId != "" && up(status) then [Tracked(msg.requestId, status)] else []
  }

  /** The tracker records of a whole message: received if it deserialised, processed, then the verdict. */
  function Trace(tracker: bool, msg: KafkaMessage, up: Status -> bool, ok: bool): seq<Tracked>
  {
    (if msg.decoded.Some? then Track(tracker, msg, up, Received) else [])
    + Track(tracker, msg, up, MessageProcessed)
    + Track(tracker, msg, up, if ok then Success else Error)
  }

  const TWO64: nat := 0x1_0000_0000_0000_0000

  /** Go's uint64 increment. */
  function Increment(n: nat): nat
  {
    (n + 1) % TWO64
  }

  class KafkaConsumer {
    const config: Configuration
    const storage: OcpStorage.Storage
    const tracker: bool
    const deadLetterQueue: bool
    var successes: nat
    var errors: nat
    var tracked: seq<Tracked>
    var deadLetters: seq<KafkaMessage>
    var marked: seq<KafkaMessage>

    constructor (config: Configuration, storage: OcpStorage.Storage, tracker: bool, deadLetterQueue: bool)
      ensures this.config == config && this.storage == storage
      ensures this.tracker == tracker && this.deadLetterQueue == deadLetterQueue
      ensures successes == errors == 0 && tracked == [] && deadLetters == [] && marked == []
    {
      this.config, this.storage := config, storage;
      this.tracker, this.deadLetterQueue := tracker, deadLetterQueue;
      successes, errors, tracked, deadLetters, marked := 0, 0, [], [], [];
    }

    /** updatePayloadTracker and TrackPayload: a missing request ID is not tracked. */
    method UpdatePayloadTracker(msg: KafkaMessage, up: Status -> bool, status: Status)
      modifies `tracked
      ensures tracked == old(tracked) + Track(tracker, msg, up, status)
    {
      if tracker {
        if msg.requestId != "" && up(status) {
          tracked := tracked + [Tracked(msg.requestId, status)];
        }
      }
    }

    /** parseMessage of the OCP processor. */
    method ParseMessage(msg: KafkaMessage, up: Status -> bool) returns (kind: Kind)
      modifies `tracked
      ensures tracked == old(tracked) + if msg.decoded.Some? then Track(tracker, msg, up, Received) else []
      ensures kind == ToStore <==> KindOf(config, msg) == ToStore || KindOf(config, msg) == NotAllowed
      ensures kind != ToStore ==> kind == KindOf(config, msg)
    {
      if msg.decoded.None? {
        return Malformed;
      }
      UpdatePayloadTracker(msg, up, Received);
      var structure := CheckReportStructure(msg.decoded.value.report);
      if structure == Empty {
        return EmptyReport;
      }
      if structure != WellFormed {
        return Malformed;
      }
      if !msg.decoded.value.contentParses {
        return Malformed;
      }
      return ToStore;
    }

    /** commonProcessMessage: an empty report is a success that stores nothing. A well-formed one is refused, and nothing
        stored, if an allow list is enabled that is missing or lacks its organization; otherwise storeInDB decides. */
    method ProcessMessage(msg: KafkaMessage, e: MessageEnv) returns (ok: bool, ghost a: Answers)
      modifies `tracked, storage, storage.db
      ensures tracked == old(tracked) + if msg.decoded.Some? then Track(tracker, msg, e.trackerUp, Received) else []
      ensures Processed(config, old(storage.State()), storage.State(), msg, e, a, ok)
    {
      a := Answers(None, map[], map[]);
      KindMeaning(config, msg);
      var kind := ParseMessage(msg, e.trackerUp);
      if kind == EmptyReport {
        return true, a;
      }
      if kind != ToStore {
        return false, a;
      }
      if config.allowlistEnabled {
        if !OrganizationAllowed(config, msg.decoded.value.message.org) {
          return false, a;
        }
      }
      ghost var report;
      ok, a, report := OcpStorage.StoreMessage(storage, msg.decoded.value.message, e.store);
    }

    /** HandleMessage: every effect of one message. */
    method HandleMessage(msg: KafkaMessage, e: MessageEnv) returns (ok: bool, ghost a: Answers)
      modifies `successes, `errors, `tracked, `deadLetters, storage, storage.db
      ensures successes == if ok then Increment(old(successes)) else old(successes)
      ensures errors == if ok then old(errors) else Increment(old(errors))
      ensures deadLetters == old(deadLetters) + if !ok && deadLetterQueue && e.deadLetterUp then [msg] else []
      ensures tracked == old(tracked) + Trace(tracker, msg, e.trackerUp, ok)
      ensures Processed(config, old(storage.State()), storage.State(), msg, e, a, ok)
    {
      ok, a := ProcessMessage(msg, e);
      UpdatePayloadTracker(msg, e.trackerUp, MessageProcessed);
      if !ok {
        errors := Increment(errors);
        if deadLetterQueue {
          if e.deadLetterUp {
            deadLetters := deadLetters + [msg];
          }
        }
        UpdatePayloadTracker(msg, e.trackerUp, Error);
      } else {
        successes := Increment(successes);
        UpdatePayloadTracker(msg, e.trackerUp, Success);
      }
    }

    /** The loop body of ConsumeClaim: the message is handled and then marked. */
    method HandleAndMark(msg: KafkaMessage, e: MessageEnv) returns (ok: bool, ghost a: Answers)
      modifies this, storage, storage.db
      ensures Snapshot() == OneMore(old(Snapshot()), tracker, deadLetterQueue, msg, e, ok)
      ensures Handled(config, old(storage.State()), storage.State(), msg, e, a, ok)
    {
      ghost var before := storage.State();
      ok, a := HandleMessage(msg, e);
      ProcessedIsHandled(config, before, storage.State(), msg, e, a, ok);
      marked := marked + [msg];
    }

    /** ConsumeClaim: each message is handled and then marked, whatever the verdict. */
    method ConsumeClaim(msgs: seq<KafkaMessage>, envs: seq<MessageEnv>)
      returns (ghost oks: seq<bool>, ghost evs: seq<Runs.Event>)
      requires |envs| == |msgs|
      requires successes < TWO64 && errors < TWO64
      modifies this, storage, storage.db
      ensures Consumed(ClaimStart(config, tracker, deadLetterQueue, old(Snapshot()), old(storage.State())),
                       Snapshot(), storage.State(), msgs, envs, oks, evs)
    {
      oks, evs := [], [];
      ghost var start := ClaimStart(config, tracker, deadLetterQueue, Snapshot(), storage.State());
      NothingConsumed(start);
      Prefixes(msgs, 0);
      Prefixes(envs, 0);
      for i := 0 to |msgs|
        invariant |oks| == i && Consumed(start, Snapshot(), storage.State(), msgs[..i], envs[..i], oks, evs)
      {
        ghost var now, here := Snapshot(), storage.State();
        ghost var a;
        var ok;
        ok, a := HandleAndMark(msgs[i], envs[i]);
        OneMoreConsumed(start, now, here, storage.State(), msgs[..i], envs[..i], oks, evs, msgs[i], envs[i], a, ok);
        Prefixes(msgs, i);
        Prefixes(envs, i);
        evs := evs + EventsOf(config, msgs[i], envs[i], a);
        oks := oks + [ok];
      }
      Prefixes(msgs, |msgs|);
      Prefixes(envs, |envs|);
    }

    ghost function Snapshot(): Accounts
      reads this
    {
      Accounts(successes, errors, tracked, deadLetters, marked)
    }
  }

  // ---------------------------------------------------------------------------
  // The accounts of a claim
  // ---------------------------------------------------------------------------

  /** The consumer's counters and everything it has emitted. */
  datatype Accounts = Accounts(
    successes: nat, errors: nat, tracked: seq<Tracked>, deadLetters: seq<KafkaMessage>, marked: seq<KafkaMessage>)

  /** The accounts after handling `msgs` with verdicts `oks`. */
  ghost predicate AccountsFor(now: Accounts, before: Accounts, tracker: bool, queue: bool,
                              msgs: seq<KafkaMessage>, envs: seq<MessageEnv>, oks: seq<bool>)
    requires |msgs| == |envs| == |oks|
  {
    && now.marked == before.marked + msgs
    && now.successes == (before.successes + CountOf(oks, true)) % TWO64
    && now.errors == (before.errors + CountOf(oks, false)) % TWO64
    && now.deadLetters == before.deadLetters + DeadLettersOf(msgs, envs, oks, queue)
    && now.tracked == before.tracked + Traces(tracker, msgs, envs, oks)
  }

  /** Where a claim starts: the consumer's settings, its accounts and the store. */
  datatype ClaimStart = ClaimStart(config: Configuration, tracker: bool, queue: bool, accounts: Accounts, store: Store)

  /** Everything about the messages consumed so far. */
  ghost predicate Consumed(start: ClaimStart, now: Accounts, s: Store, msgs: seq<KafkaMessage>, envs: seq<MessageEnv>,
                           oks: seq<bool>, evs: seq<Runs.Event>)
  {
    && |msgs| == |envs| == |oks|
    && AccountsFor(now, start.accounts, start.tracker, start.queue, msgs, envs, oks)
    && VerdictsWithoutStorage(start.config, msgs, oks)
    && IsClaimRun(start.config, start.store, s, msgs, envs, evs)
  }

  /** Empty reports succeed, malformed and refused messages fail, without the storage. */
  ghost predicate VerdictsWithoutStorage(config: Configuration, msgs: seq<KafkaMessage>, oks: seq<bool>)
    requires |msgs| == |oks|
  {
    forall i :: 0 <= i < |msgs| && KindOf(config, msgs[i]) != ToStore ==> oks[i] == (KindOf(config, msgs[i]) == EmptyReport)
  }

  function CountOf(oks: seq<bool>, ok: bool): nat
  {
    if oks == [] then 0 else CountOf(oks[..|oks| - 1], ok) + if oks[|oks| - 1] == ok then 1 else 0
  }

  /** The failed messages that reach the dead letter queue, in order. */
  function DeadLettersOf(msgs: seq<KafkaMessage>, envs: seq<MessageEnv>, oks: seq<bool>, queue: bool): seq<KafkaMessage>
    requires |msgs| == |envs| == |oks|
  {
    if msgs == [] then [] else
      var n := |msgs| - 1;
      DeadLettersOf(msgs[..n], envs[..n], oks[..n], queue) + if !oks[n] && queue && envs[n].deadLetterUp then [msgs[n]] else []
  }

  function Traces(tracker: bool, msgs: seq<KafkaMessage>, envs: seq<MessageEnv>, oks: seq<bool>): seq<Tracked>
    requires |msgs| == |envs| == |oks|
  {
    if msgs == [] then [] else
      var n := |msgs| - 1;
      Traces(tracker, msgs[..n], envs[..n], oks[..n]) + Trace(tracker, msgs[n], envs[n].trackerUp, oks[n])
  }

  lemma CounterStep(n: nat)
    ensures Increment(n % TWO64) == (n + 1) % TWO64
  {
  }

  /** What one handled and marked message adds. */
  ghost function OneMore(now: Accounts, tracker: bool, queue: bool, msg: KafkaMessage, e: MessageEnv, ok: bool): Accounts
  {
    Accounts(
      if ok then Increment(now.successes) else now.successes,
      if ok then now.errors else Increment(now.errors),
      now.tracked + Trace(tracker, msg, e.trackerUp, ok),
      now.deadLetters + (if !ok && queue && e.deadLetterUp then [msg] else []),
      now.marked + [msg])
  }

  /** Before the first message. */
  lemma NothingConsumed(start: ClaimStart)
    requires start.accounts.successes < TWO64 && start.accounts.errors < TWO64
    ensures Consumed(start, start.accounts, start.store, [], [], [], [])
  {
  }

  lemma OneMoreConsumed(start: ClaimStart, now: Accounts, s: Store, s': Store, msgs: seq<KafkaMessage>, envs: seq<MessageEnv>,
                        oks: seq<bool>, evs: seq<Runs.Event>, msg: KafkaMessage, e: MessageEnv, a: Answers, ok: bool)
    requires Consumed(start, now, s, msgs, envs, oks, evs) && Handled(start.config, s, s', msg, e, a, ok)
    ensures Consumed(start, OneMore(now, start.tracker, start.queue, msg, e, ok), s', msgs + [msg], envs + [e], oks + [ok],
                     evs + EventsOf(start.config, msg, e, a))
  {
    AccountsStep(now, start.accounts, start.tracker, start.queue, msgs, envs, oks, msg, e, ok);
    VerdictsStep(start.config, msgs, oks, msg, ok);
    ClaimRunStep(start.config, start.store, s, s', msgs, envs, evs, msg, e, a, ok);
  }

  /** The accounts grow by one message. */
  lemma AccountsStep(now: Accounts, before: Accounts, tracker: bool, queue: bool, msgs: seq<KafkaMessage>,
                     envs: seq<MessageEnv>, oks: seq<bool>, msg: KafkaMessage, e: MessageEnv, ok: bool)
    requires |msgs| == |envs| == |oks|
    requires AccountsFor(now, before, tracker, queue, msgs, envs, oks)
    ensures AccountsFor(OneMore(now, tracker, queue, msg, e, ok), before, tracker, queue,
                        msgs + [msg], envs + [e], oks + [ok])
  {
    EmittedAfter(before, tracker, queue, msgs, envs, oks, msg, e, ok);
    CountersStep(before.successes, oks, true, ok);
    CountersStep(before.errors, oks, false, ok);
  }

  lemma EmittedAfter(before: Accounts, tracker: bool, queue: bool, msgs: seq<KafkaMessage>, envs: seq<MessageEnv>,
                     oks: seq<bool>, msg: KafkaMessage, e: MessageEnv, ok: bool)
    requires |msgs| == |envs| == |oks|
    ensures before.marked + (msgs + [msg]) == before.marked + msgs + [msg]
    ensures before.tracked + Traces(tracker, msgs + [msg], envs + [e], oks + [ok]) ==
            before.tracked + Traces(tracker, msgs, envs, oks) + Trace(tracker, msg, e.trackerUp, ok)
    ensures before.deadLetters + DeadLettersOf(msgs + [msg], envs + [e], oks + [ok], queue) ==
            before.deadLetters + DeadLettersOf(msgs, envs, oks, queue)
            + if !ok && queue && e.deadLetterUp then [msg] else []
  {
    EmittedStep(tracker, queue, msgs, envs, oks, msg, e, ok);
    ConcatAssociates(before.marked, msgs, [msg]);
    ConcatAssociates(before.tracked, Traces(tracker, msgs, envs, oks), Trace(tracker, msg, e.trackerUp, ok));
    ConcatAssociates(before.deadLetters, DeadLettersOf(msgs, envs, oks, queue),
                     if !ok && queue && e.deadLetterUp then [msg] else []);
  }

  lemma Prefixes<T>(s: seq<T>, i: nat)
    requires i <= |s|
    ensures s[..0] == [] && s[..|s|] == s
    ensures i < |s| ==> s[..i + 1] == s[..i] + [s[i]]
  {
  }

  lemma ConcatAssociates<T>(a: seq<T>, b: seq<T>, c: seq<T>)
    ensures a + (b + c) == a + b + c
  {
  }

  /** The counter of verdict `v` counts one more message with verdict `ok`. */
  lemma CountersStep(n: nat, oks: seq<bool>, v: bool, ok: bool)
    ensures (n + CountOf(oks + [ok], v)) % TWO64 ==
            if v == ok then Increment((n + CountOf(oks, v)) % TWO64) else (n + CountOf(oks, v)) % TWO64
  {
    CountStep(oks, ok);
    CounterStep(n + CountOf(oks, v));
  }

  lemma CountStep(oks: seq<bool>, ok: bool)
    ensures CountOf(oks + [ok], true) == CountOf(oks, true) + if ok then 1 else 0
    ensures CountOf(oks + [ok], false) == CountOf(oks, false) + if ok then 0 else 1
  {
    assert (oks + [ok])[..|oks|] == oks;
  }

  lemma EmittedStep(tracker: bool, queue: bool, msgs: seq<KafkaMessage>, envs: seq<MessageEnv>, oks: seq<bool>,
                    msg: KafkaMessage, e: MessageEnv, ok: bool)
    requires |msgs| == |envs| == |oks|
    ensures Traces(tracker, msgs + [msg], envs + [e], oks + [ok]) ==
            Traces(tracker, msgs, envs, oks) + Trace(tracker, msg, e.trackerUp, ok)
    ensures DeadLettersOf(msgs + [msg], envs + [e], oks + [ok], queue) ==
            DeadLettersOf(msgs, envs, oks, queue) + if !ok && queue && e.deadLetterUp then [msg] else []
  {
    assert (msgs + [msg])[..|msgs|] == msgs && (envs + [e])[..|envs|] == envs && (oks + [ok])[..|oks|] == oks;
  }

  /** The messages that reach the storage, in order. */
  function MessagesToStore(config: Configuration, msgs: seq<KafkaMessage>): seq<Message>
  {
    if msgs == [] then [] else
      var n := |msgs| - 1;
      MessagesToStore(config, msgs[..n])
      + if KindOf(config, msgs[n]) == ToStore then [msgs[n].decoded.value.message] else []
  }

  /** The run processes exactly the messages to store, in order. */
  ghost predicate ProcessesExactly(config: Configuration, msgs: seq<KafkaMessage>, evs: seq<Runs.Event>)
  {
    var ms := MessagesToStore(config, msgs);
    |evs| == |ms| && forall i :: 0 <= i < |evs| ==> evs[i].Process? && evs[i].m == ms[i]
  }

  /** A claim of empty, malformed or refused messages leaves tables and cache untouched. */
  lemma {:induction false} NothingStored(config: Configuration, s: Store, s': Store, msgs: seq<KafkaMessage>,
                                         envs: seq<MessageEnv>, evs: seq<Runs.Event>)
    requires IsClaimRun(config, s, s', msgs, envs, evs)
    requires forall i :: 0 <= i < |msgs| ==> KindOf(config, msgs[i]) != ToStore
    ensures s' == s
  {
    NoneToStore(config, msgs);
    assert AsWorld(s).caches[0] == s.cache && AsWorld(s').caches[0] == s'.cache;
  }

  lemma {:induction false} NoneToStore(config: Configuration, msgs: seq<KafkaMessage>)
    requires forall i :: 0 <= i < |msgs| ==> KindOf(config, msgs[i]) != ToStore
    ensures MessagesToStore(config, msgs) == []
  {
    if msgs != [] {
      var front := msgs[..|msgs| - 1];
      assert forall i :: 0 <= i < |front| ==> front[i] == msgs[i];
      NoneToStore(config, front);
    }
  }

  lemma ToStoreStep(config: Configuration, msgs: seq<KafkaMessage>, msg: KafkaMessage)
    ensures MessagesToStore(config, msgs + [msg]) ==
            MessagesToStore(config, msgs) + if KindOf(config, msg) == ToStore then [msg.decoded.value.message] else []
  {
    assert (msgs + [msg])[..|msgs|] == msgs;
  }

  /** The consumer's storage as a world with one instance. */
  ghost function AsWorld(s: Store): Runs.World
  {
    Runs.World(s.tables, map[0 := s.cache])
  }

  ghost predicate FailuresAbort(envs: seq<MessageEnv>)
  {
    forall i :: 0 <= i < |envs| ==> FailureAborts(envs[i].store.org)
  }

  /** The claim is a run of storeInDB that processes exactly the messages to store, in order. */
  ghost predicate IsClaimRun(config: Configuration, s: Store, s': Store, msgs: seq<KafkaMessage>,
                             envs: seq<MessageEnv>, evs: seq<Runs.Event>)
  {
    && ProcessesExactly(config, msgs, evs)
    && Runs.Run(AsWorld(s), evs) == AsWorld(s')
    && (FailuresAbort(envs) ==> Runs.PossibleRun(AsWorld(s), evs))
  }

  /** One message, over its raw parts: a well-formed report with parsing content is refused, and nothing stored, if an
      allow list is enabled that is missing or lacks its organization; otherwise storeInDB decides. Any other message
      stores nothing, and succeeds iff it is a report without content that lacks an expected key. */
  ghost predicate Processed(config: Configuration, s: Store, s': Store, msg: KafkaMessage, e: MessageEnv, a: Answers, ok: bool)
  {
    if msg.decoded.None? then s' == s && !ok
    else if !HasExpectedKeys(msg.decoded.value.report) then s' == s && (ok <==> HasNoContent(msg.decoded.value.report))
    else if !msg.decoded.value.contentParses then s' == s && !ok
    else
      var m := msg.decoded.value.message;
      if config.allowlistEnabled && (config.allowlist.None? || m.org !in config.allowlist.value) then s' == s && !ok
      else
        && PossibleAnswers(s, m, e.store, a)
        && StoreInDb(s, m, e.store, a).store == s' && StoreInDb(s, m, e.store, a).ok == ok
  }

  lemma ProcessedIsHandled(config: Configuration, s: Store, s': Store, msg: KafkaMessage, e: MessageEnv, a: Answers, ok: bool)
    requires Processed(config, s, s', msg, e, a, ok)
    ensures Handled(config, s, s', msg, e, a, ok)
  {
    KindMeaning(config, msg);
  }

  /** One message takes the store from `s` to `s'`: by storeInDB, which also gives the verdict, or not at all if it is
      not to be stored, when an empty report is a success and anything else a failure. */
  ghost predicate Handled(config: Configuration, s: Store, s': Store, msg: KafkaMessage, e: MessageEnv, a: Answers, ok: bool)
  {
    if KindOf(config, msg) != ToStore then s' == s && ok == (KindOf(config, msg) == EmptyReport)
    else
      var m := msg.decoded.value.message;
      && PossibleAnswers(s, m, e.store, a)
      && StoreInDb(s, m, e.store, a).store == s' && StoreInDb(s, m, e.store, a).ok == ok
  }

  /** The event one message adds to the run, if it reaches the storage. */
  ghost function EventsOf(config: Configuration, msg: KafkaMessage, e: MessageEnv, a: Answers): seq<Runs.Event>
  {
    if KindOf(config, msg) == ToStore then [Runs.Process(0, msg.decoded.value.message, e.store, a)] else []
  }

  lemma ClaimRunStep(config: Configuration, s0: Store, s: Store, s': Store, msgs: seq<KafkaMessage>,
                     envs: seq<MessageEnv>, evs: seq<Runs.Event>, msg: KafkaMessage, e: MessageEnv, a: Answers, ok: bool)
    requires |msgs| == |envs| && IsClaimRun(config, s0, s, msgs, envs, evs)
    requires Handled(config, s, s', msg, e, a, ok)
    ensures IsClaimRun(config, s0, s', msgs + [msg], envs + [e], evs + EventsOf(config, msg, e, a))
  {
    ToStoreStep(config, msgs, msg);
    FailuresStep(envs, e);
    if KindOf(config, msg) == ToStore {
      RunStep(s0, s, s', evs, msg.decoded.value.message, e.store, a);
    } else {
      assert evs + [] == evs;
    }
  }

  lemma FailuresStep(envs: seq<MessageEnv>, e: MessageEnv)
    ensures FailuresAbort(envs + [e]) ==> FailuresAbort(envs) && FailureAborts(e.store.org)
  {
    assert forall j :: 0 <= j < |envs| ==> (envs + [e])[j] == envs[j];
    assert (envs + [e])[|envs|] == e;
  }

  lemma RunStep(s0: Store, s: Store, s': Store, evs: seq<Runs.Event>, m: Message, e: Env, a: Answers)
    requires Runs.Run(AsWorld(s0), evs) == AsWorld(s)
    requires PossibleAnswers(s, m, e, a) && StoreInDb(s, m, e, a).store == s'
    ensures Runs.Run(AsWorld(s0), evs + [Runs.Process(0, m, e, a)]) == AsWorld(s')
    ensures FailureAborts(e.org) && Runs.PossibleRun(AsWorld(s0), evs) ==>
              Runs.PossibleRun(AsWorld(s0), evs + [Runs.Process(0, m, e, a)])
  {
    Runs.RunSnoc(AsWorld(s0), evs, Runs.Process(0, m, e, a));
    StepAsWorld(s, s', m, e, a);
  }

  lemma StepAsWorld(s: Store, s': Store, m: Message, e: Env, a: Answers)
    requires StoreInDb(s, m, e, a).store == s'
    ensures Runs.StoreOf(AsWorld(s), 0) == s
    ensures Runs.Step(AsWorld(s), Runs.Process(0, m, e, a)) == AsWorld(s')
  {
    assert Runs.StoreOf(AsWorld(s), 0) == s;
    assert map[0 := s.cache][0 := s'.cache] == map[0 := s'.cache];
  }

  lemma VerdictsStep(config: Configuration, msgs: seq<KafkaMessage>, oks: seq<bool>, msg: KafkaMessage, ok: bool)
    requires |oks| == |msgs| && VerdictsWithoutStorage(config, msgs, oks)
    requires KindOf(config, msg) != ToStore ==> ok == (KindOf(config, msg) == EmptyReport)
    ensures VerdictsWithoutStorage(config, msgs + [msg], oks + [ok])
  {
  }

  lemma {:induction false} VerdictsCounted(oks: seq<bool>)
    ensures CountOf(oks, true) + CountOf(oks, false) == |oks|
  {
    if oks != [] {
      VerdictsCounted(oks[..|oks| - 1]);
    }
  }

  /** Over a claim the two counters together grow by the number of messages marked, modulo their width, and exactly
      unless one of them wraps around. */
  lemma SuccessesPlusErrors(now: Accounts, before: Accounts, tracker: bool, queue: bool,
                            msgs: seq<KafkaMessage>, envs: seq<MessageEnv>, oks: seq<bool>)
    requires |msgs| == |envs| == |oks| && AccountsFor(now, before, tracker, queue, msgs, envs, oks)
    ensures |now.marked| == |before.marked| + |msgs|
    ensures (now.successes + now.errors) % TWO64 ==
            (before.successes + before.errors + (|now.marked| - |before.marked|)) % TWO64
    ensures before.successes + |msgs| < TWO64 && before.errors + |msgs| < TWO64 ==>
              (now.successes - before.successes) + (now.errors - before.errors) == |now.marked| - |before.marked|
  {
    VerdictsCounted(oks);
    SumModulo(before.successes + CountOf(oks, true), before.errors + CountOf(oks, false));
    SmallModulo(before.successes + CountOf(oks, true));
    SmallModulo(before.errors + CountOf(oks, false));
  }

  lemma SmallModulo(x: nat)
    ensures x < TWO64 ==> x % TWO64 == x
  {
  }

  lemma SumModulo(x: nat, y: nat)
    ensures (x % TWO64 + y % TWO64) % TWO64 == (x + y) % TWO64
  {
  }

  /** Message `i` failed and could be sent to the dead letter queue. */
  predicate IsDead(envs: seq<MessageEnv>, oks: seq<bool>, i: nat)
  {
    i < |oks| && i < |envs| && !oks[i] && envs[i].deadLetterUp
  }

  /** `dead` has the messages at the positions `at`, which are those of the dead messages in order. */
  ghost predicate ListsDead(at: seq<nat>, dead: seq<KafkaMessage>, msgs: seq<KafkaMessage>, envs: seq<MessageEnv>, oks: seq<bool>)
  {
    && |dead| == |at|
    && (forall j :: 0 <= j < |at| ==> at[j] < |msgs| && dead[j] == msgs[at[j]])
    && (forall j, k :: 0 <= j < k < |at| ==> at[j] < at[k])
    && (forall i: nat :: i in at <==> IsDead(envs, oks, i))
  }

  /** With a queue, the dead letters are exactly the failed messages whose send succeeds, each once and in order;
      without one there are none. */
  lemma {:induction false} DeadLettersAreErrors(msgs: seq<KafkaMessage>, envs: seq<MessageEnv>, oks: seq<bool>)
    returns (at: seq<nat>)
    requires |msgs| == |envs| == |oks|
    ensures ListsDead(at, DeadLettersOf(msgs, envs, oks, true), msgs, envs, oks)
    ensures DeadLettersOf(msgs, envs, oks, false) == []
  {
    if msgs == [] {
      at := [];
    } else {
      var n := |msgs| - 1;
      var front := DeadLettersAreErrors(msgs[..n], envs[..n], oks[..n]);
      at := if IsDead(envs, oks, n) then front + [n] else front;
      LastDeadLetter(msgs, envs, oks);
      ListsOneMore(front, DeadLettersOf(msgs[..n], envs[..n], oks[..n], true), msgs, envs, oks);
    }
  }

  lemma ListsOneMore(at: seq<nat>, dead: seq<KafkaMessage>, msgs: seq<KafkaMessage>, envs: seq<MessageEnv>, oks: seq<bool>)
    requires |msgs| == |envs| == |oks| && msgs != []
    requires var n := |msgs| - 1; ListsDead(at, dead, msgs[..n], envs[..n], oks[..n])
    ensures var n := |msgs| - 1;
            if IsDead(envs, oks, n) then ListsDead(at + [n], dead + [msgs[n]], msgs, envs, oks)
            else ListsDead(at, dead, msgs, envs, oks)
  {
    var n := |msgs| - 1;
    forall i: nat | i != n ensures IsDead(envs, oks, i) <==> IsDead(envs[..n], oks[..n], i) {}
    forall j | 0 <= j < |at| ensures at[j] < n && dead[j] == msgs[at[j]] {
      assert msgs[..n][at[j]] == msgs[at[j]];
    }
    assert n !in at;
  }

  lemma LastDeadLetter(msgs: seq<KafkaMessage>, envs: seq<MessageEnv>, oks: seq<bool>)
    requires |msgs| == |envs| == |oks| && msgs != []
    ensures var n := |msgs| - 1;
            DeadLettersOf(msgs, envs, oks, true) ==
            DeadLettersOf(msgs[..n], envs[..n], oks[..n], true)
            + if !oks[n] && envs[n].deadLetterUp then [msgs[n]] else []
  {
  }

  /** With a queue whose sends succeed there are as many dead letters as errors. */
  lemma {:induction false} AsManyDeadLetters(msgs: seq<KafkaMessage>, envs: seq<MessageEnv>, oks: seq<bool>)
    requires |msgs| == |envs| == |oks|
    requires forall i :: 0 <= i < |envs| ==> envs[i].deadLetterUp
    ensures |DeadLettersOf(msgs, envs, oks, true)| == CountOf(oks, false)
  {
    if msgs != [] {
      var n := |msgs| - 1;
      AsManyDeadLetters(msgs[..n], envs[..n], oks[..n]);
      LastDeadLetter(msgs, envs, oks);
    }
  }

  function StatusTerm(status: Status, t: Tracked): nat
  {
    if t.status == status then 1 else 0
  }

  function CountStatus(log: seq<Tracked>, status: Status): nat
  {
    if log == [] then 0 else CountStatus(log[..|log| - 1], status) + StatusTerm(status, log[|log| - 1])
  }

  lemma {:induction false} CountStatusConcat(a: seq<Tracked>, b: seq<Tracked>, status: Status)
    ensures CountStatus(a + b, status) == CountStatus(a, status) + CountStatus(b, status)
  {
    if b == [] {
      assert a + b == a;
    } else {
      assert (a + b)[..|a + b| - 1] == a + b[..|b| - 1];
      CountStatusConcat(a, b[..|b| - 1], status);
    }
  }

  /** The message is tracked under the status: it has a request ID, the send succeeds, and the status applies. */
  predicate IsTracked(msg: KafkaMessage, e: MessageEnv, ok: bool, status: Status)
  {
    && msg.requestId != "" && e.trackerUp(status)
    && match status
       case Received => msg.decoded.Some?
       case MessageProcessed => true
       case Success => ok
       case Error => !ok
  }

  function CountTracked(msgs: seq<KafkaMessage>, envs: seq<MessageEnv>, oks: seq<bool>, status: Status): nat
    requires |msgs| == |envs| == |oks|
  {
    if msgs == [] then 0 else
      var n := |msgs| - 1;
      CountTracked(msgs[..n], envs[..n], oks[..n], status) + if IsTracked(msgs[n], envs[n], oks[n], status) then 1 else 0
  }

  /** Under each status the tracker has exactly the messages that are tracked under it. */
  lemma {:induction false} TracesCounted(msgs: seq<KafkaMessage>, envs: seq<MessageEnv>, oks: seq<bool>, status: Status)
    requires |msgs| == |envs| == |oks|
    ensures CountStatus(Traces(true, msgs, envs, oks), status) == CountTracked(msgs, envs, oks, status)
  {
    if msgs != [] {
      var n := |msgs| - 1;
      TracesCounted(msgs[..n], envs[..n], oks[..n], status);
      LastTraced(msgs, envs, oks, status);
    }
  }

  lemma LastTraced(msgs: seq<KafkaMessage>, envs: seq<MessageEnv>, oks: seq<bool>, status: Status)
    requires |msgs| == |envs| == |oks| && msgs != []
    ensures var n := |msgs| - 1;
            CountStatus(Traces(true, msgs, envs, oks), status) ==
            CountStatus(Traces(true, msgs[..n], envs[..n], oks[..n]), status)
            + if IsTracked(msgs[n], envs[n], oks[n], status) then 1 else 0
  {
    var n := |msgs| - 1;
    TraceCounts(msgs[n], envs[n], oks[n], status);
    CountStatusConcat(Traces(true, msgs[..n], envs[..n], oks[..n]), Trace(true, msgs[n], envs[n].trackerUp, oks[n]), status);
  }

  lemma TraceCounts(msg: KafkaMessage, e: MessageEnv, ok: bool, s: Status)
    ensures CountStatus(Trace(true, msg, e.trackerUp, ok), s) == if IsTracked(msg, e, ok, s) then 1 else 0
  {
    var received := if msg.decoded.Some? then Track(true, msg, e.trackerUp, Received) else [];
    var processed := Track(true, msg, e.trackerUp, MessageProcessed);
    var verdict := if ok then Success else Error;
    CountStatusConcat(received + processed, Track(true, msg, e.trackerUp, verdict), s);
    CountStatusConcat(received, processed, s);
    TrackCounts(msg, e, Received, s);
    TrackCounts(msg, e, MessageProcessed, s);
    TrackCounts(msg, e, verdict, s);
  }

  lemma TrackCounts(msg: KafkaMessage, e: MessageEnv, status: Status, s: Status)
    ensures CountStatus(Track(true, msg, e.trackerUp, status), s) ==
            if msg.requestId != "" && e.trackerUp(status) && s == status then 1 else 0
  {
    var log := [Tracked(msg.requestId, status)];
    assert log[..|log| - 1] == [];
    assert CountStatus(log, s) == StatusTerm(s, log[0]);
  }

  /** Received comes before processed, and processed before the verdict. */
  function Rank(status: Status): nat
  {
    match status
    case Received => 0
    case MessageProcessed => 1
    case Success => 2
    case Error => 2
  }

  predicate Before(p: (nat, Status), q: (nat, Status))
  {
    p.0 < q.0 || (p.0 == q.0 && Rank(p.1) < Rank(q.1))
  }

  /** `log` has the records of the messages and statuses `at`: exactly those tracked, message by message and then in the
      order of the statuses, each under its message's request ID. */
  ghost predicate ListsTracked(at: seq<(nat, Status)>, log: seq<Tracked>, msgs: seq<KafkaMessage>, envs: seq<MessageEnv>,
                               oks: seq<bool>)
    requires |msgs| == |envs| == |oks|
  {
    && |log| == |at|
    && (forall j :: 0 <= j < |at| ==> at[j].0 < |msgs| && log[j] == Tracked(msgs[at[j].0].requestId, at[j].1))
    && (forall j, k :: 0 <= j < k < |at| ==> Before(at[j], at[k]))
    && (forall i: nat, s :: (i, s) in at <==> i < |msgs| && IsTracked(msgs[i], envs[i], oks[i], s))
  }

  function IfTracked(msg: KafkaMessage, e: MessageEnv, ok: bool, status: Status): seq<Status>
  {
    if IsTracked(msg, e, ok, status) then [status] else []
  }

  function StatusesOf(msg: KafkaMessage, e: MessageEnv, ok: bool): seq<Status>
  {
    IfTracked(msg, e, ok, Received) + IfTracked(msg, e, ok, MessageProcessed)
    + IfTracked(msg, e, ok, if ok then Success else Error)
  }

  function Records(id: string, statuses: seq<Status>): (log: seq<Tracked>)
    ensures |log| == |statuses| && forall j :: 0 <= j < |log| ==> log[j] == Tracked(id, statuses[j])
  {
    seq(|statuses|, (j: nat) requires j < |statuses| => Tracked(id, statuses[j]))
  }

  lemma RecordsConcat(id: string, s: seq<Status>, t: seq<Status>)
    ensures Records(id, s + t) == Records(id, s) + Records(id, t)
  {
  }

  lemma TrackRecords(msg: KafkaMessage, e: MessageEnv, ok: bool, status: Status)
    requires status != Received && (status == Success ==> ok) && (status == Error ==> !ok)
    ensures Track(true, msg, e.trackerUp, status) == Records(msg.requestId, IfTracked(msg, e, ok, status))
  {
  }

  /** The records of a message are those of its statuses. */
  lemma TraceRecords(msg: KafkaMessage, e: MessageEnv, ok: bool)
    ensures Trace(true, msg, e.trackerUp, ok) == Records(msg.requestId, StatusesOf(msg, e, ok))
  {
    var id, verdict := msg.requestId, if ok then Success else Error;
    TrackRecords(msg, e, ok, MessageProcessed);
    TrackRecords(msg, e, ok, verdict);
    var received := IfTracked(msg, e, ok, Received);
    assert (if msg.decoded.Some? then Track(true, msg, e.trackerUp, Received) else []) == Records(id, received);
    RecordsConcat(id, received, IfTracked(msg, e, ok, MessageProcessed));
    RecordsConcat(id, received + IfTracked(msg, e, ok, MessageProcessed), IfTracked(msg, e, ok, verdict));
  }

  lemma StatusesInOrder(msg: KafkaMessage, e: MessageEnv, ok: bool)
    ensures forall s :: s in StatusesOf(msg, e, ok) <==> IsTracked(msg, e, ok, s)
    ensures forall j, k :: 0 <= j < k < |StatusesOf(msg, e, ok)| ==>
                             Rank(StatusesOf(msg, e, ok)[j]) < Rank(StatusesOf(msg, e, ok)[k])
  {
    forall s ensures s in StatusesOf(msg, e, ok) <==> IsTracked(msg, e, ok, s) {
      assert s in StatusesOf(msg, e, ok) <==>
             || s in IfTracked(msg, e, ok, Received) || s in IfTracked(msg, e, ok, MessageProcessed)
             || s in IfTracked(msg, e, ok, if ok then Success else Error);
    }
  }

  function PositionsOf(n: nat, statuses: seq<Status>): (at: seq<(nat, Status)>)
    ensures |at| == |statuses| && forall j :: 0 <= j < |at| ==> at[j] == (n, statuses[j])
  {
    seq(|statuses|, (j: nat) requires j < |statuses| => (n, statuses[j]))
  }

  /** With a tracker, a claim's records are exactly those of its tracked messages and statuses, in order; without one
      there are none. */
  lemma {:induction false} TracesInOrder(msgs: seq<KafkaMessage>, envs: seq<MessageEnv>, oks: seq<bool>)
    returns (at: seq<(nat, Status)>)
    requires |msgs| == |envs| == |oks|
    ensures ListsTracked(at, Traces(true, msgs, envs, oks), msgs, envs, oks)
    ensures Traces(false, msgs, envs, oks) == []
  {
    if msgs == [] {
      at := [];
    } else {
      var n := |msgs| - 1;
      var front := TracesInOrder(msgs[..n], envs[..n], oks[..n]);
      at := front + PositionsOf(n, StatusesOf(msgs[n], envs[n], oks[n]));
      TrackedStill(front, Traces(true, msgs[..n], envs[..n], oks[..n]), msgs, envs, oks);
      OneMoreTracked(front, Traces(true, msgs[..n], envs[..n], oks[..n]), msgs, envs, oks);
    }
  }

  /** What the listing of all messages but the last says in terms of all. */
  ghost predicate ListsFront(at: seq<(nat, Status)>, log: seq<Tracked>, msgs: seq<KafkaMessage>, envs: seq<MessageEnv>,
                             oks: seq<bool>)
    requires |msgs| == |envs| == |oks| && msgs != []
  {
    && |log| == |at|
    && (forall j :: 0 <= j < |at| ==> at[j].0 < |msgs| - 1 && log[j] == Tracked(msgs[at[j].0].requestId, at[j].1))
    && (forall j, k :: 0 <= j < k < |at| ==> Before(at[j], at[k]))
    && (forall i: nat, s :: (i, s) in at <==> i < |msgs| - 1 && IsTracked(msgs[i], envs[i], oks[i], s))
  }

  lemma TrackedStill(at: seq<(nat, Status)>, log: seq<Tracked>, msgs: seq<KafkaMessage>, envs: seq<MessageEnv>, oks: seq<bool>)
    requires |msgs| == |envs| == |oks| && msgs != []
    requires var n := |msgs| - 1; ListsTracked(at, log, msgs[..n], envs[..n], oks[..n])
    ensures ListsFront(at, log, msgs, envs, oks)
  {
    var n := |msgs| - 1;
    forall i: nat | i < n ensures msgs[..n][i] == msgs[i] && envs[..n][i] == envs[i] && oks[..n][i] == oks[i] {}
  }

  lemma OneMoreTracked(at: seq<(nat, Status)>, log: seq<Tracked>, msgs: seq<KafkaMessage>, envs: seq<MessageEnv>, oks: seq<bool>)
    requires |msgs| == |envs| == |oks| && msgs != [] && ListsFront(at, log, msgs, envs, oks)
    ensures var n := |msgs| - 1;
            ListsTracked(at + PositionsOf(n, StatusesOf(msgs[n], envs[n], oks[n])),
                         log + Trace(true, msgs[n], envs[n].trackerUp, oks[n]), msgs, envs, oks)
  {
    var n := |msgs| - 1;
    TraceRecords(msgs[n], envs[n], oks[n]);
    MembersStep(at, log, msgs, envs, oks);
    OrderStep(at, log, msgs, envs, oks);
    RecordsStep(at, log, msgs, envs, oks);
  }

  lemma MembersStep(at: seq<(nat, Status)>, log: seq<Tracked>, msgs: seq<KafkaMessage>, envs: seq<MessageEnv>, oks: seq<bool>)
    requires |msgs| == |envs| == |oks| && msgs != [] && ListsFront(at, log, msgs, envs, oks)
    ensures var n := |msgs| - 1;
            forall i: nat, s ::
              (i, s) in at + PositionsOf(n, StatusesOf(msgs[n], envs[n], oks[n])) <==>
                i < |msgs| && IsTracked(msgs[i], envs[i], oks[i], s)
  {
    var n := |msgs| - 1;
    var more := PositionsOf(n, StatusesOf(msgs[n], envs[n], oks[n]));
    StatusesInOrder(msgs[n], envs[n], oks[n]);
    forall i: nat, s ensures (i, s) in at + more <==> i < |msgs| && IsTracked(msgs[i], envs[i], oks[i], s) {
      PositionsListed(n, StatusesOf(msgs[n], envs[n], oks[n]), i, s);
      assert (i, s) in at + more <==> (i, s) in at || (i, s) in more;
    }
  }

  lemma OrderStep(at: seq<(nat, Status)>, log: seq<Tracked>, msgs: seq<KafkaMessage>, envs: seq<MessageEnv>, oks: seq<bool>)
    requires |msgs| == |envs| == |oks| && msgs != [] && ListsFront(at, log, msgs, envs, oks)
    ensures var n := |msgs| - 1;
            var all := at + PositionsOf(n, StatusesOf(msgs[n], envs[n], oks[n]));
            forall j, k :: 0 <= j < k < |all| ==> Before(all[j], all[k])
  {
    var n := |msgs| - 1;
    StatusesInOrder(msgs[n], envs[n], oks[n]);
    Appended(at, PositionsOf(n, StatusesOf(msgs[n], envs[n], oks[n])));
  }

  lemma RecordsStep(at: seq<(nat, Status)>, log: seq<Tracked>, msgs: seq<KafkaMessage>, envs: seq<MessageEnv>, oks: seq<bool>)
    requires |msgs| == |envs| == |oks| && msgs != [] && ListsFront(at, log, msgs, envs, oks)
    ensures var n := |msgs| - 1;
            var statuses := StatusesOf(msgs[n], envs[n], oks[n]);
            var all, logs := at + PositionsOf(n, statuses), log + Records(msgs[n].requestId, statuses);
            && |logs| == |all|
            && forall j :: 0 <= j < |all| ==> all[j].0 < |msgs| && logs[j] == Tracked(msgs[all[j].0].requestId, all[j].1)
  {
  }

  lemma PositionsListed(n: nat, statuses: seq<Status>, i: nat, s: Status)
    ensures (i, s) in PositionsOf(n, statuses) <==> i == n && s in statuses
  {
    if i == n && s in statuses {
      var j :| 0 <= j < |statuses| && statuses[j] == s;
      assert PositionsOf(n, statuses)[j] == (i, s);
    }
  }

  lemma Appended(at: seq<(nat, Status)>, more: seq<(nat, Status)>)
    requires forall j, k :: 0 <= j < k < |at| ==> Before(at[j], at[k])
    requires forall j, k :: 0 <= j < k < |more| ==> Before(more[j], more[k])
    requires forall j, k :: 0 <= j < |at| && 0 <= k < |more| ==> Before(at[j], more[k])
    ensures forall j, k :: 0 <= j < k < |at + more| ==> Before((at + more)[j], (at + more)[k])
  {
  }

  ghost predicate AllUp(up: Status -> bool)
  {
    up(Received) && up(MessageProcessed) && up(Success) && up(Error)
  }

  /** Every send of the tracker succeeds, and every message has a request ID. */
  ghost predicate TrackerWorks(msgs: seq<KafkaMessage>, envs: seq<MessageEnv>)
    requires |msgs| == |envs|
  {
    forall i :: 0 <= i < |msgs| ==> msgs[i].requestId != "" && AllUp(envs[i].trackerUp)
  }

  /** The tracker agrees with the counters: whatever sends fail and IDs are missing, each status counts the messages it
      applies to, has an ID for and can send; if nothing fails or is missing, that is the counters of the claim. */
  lemma TracesMatchCounters(msgs: seq<KafkaMessage>, envs: seq<MessageEnv>, oks: seq<bool>)
    requires |msgs| == |envs| == |oks|
    ensures forall s :: CountStatus(Traces(true, msgs, envs, oks), s) == CountTracked(msgs, envs, oks, s)
    ensures TrackerWorks(msgs, envs) ==>
              && CountTracked(msgs, envs, oks, Success) == CountOf(oks, true)
              && CountTracked(msgs, envs, oks, Error) == CountOf(oks, false)
              && CountTracked(msgs, envs, oks, MessageProcessed) == |msgs|
              && CountTracked(msgs, envs, oks, Received) == CountDecoded(msgs)
  {
    forall s ensures CountStatus(Traces(true, msgs, envs, oks), s) == CountTracked(msgs, envs, oks, s) {
      TracesCounted(msgs, envs, oks, s);
    }
    if TrackerWorks(msgs, envs) {
      AllTracked(msgs, envs, oks);
    }
  }

  lemma {:induction false} AllTracked(msgs: seq<KafkaMessage>, envs: seq<MessageEnv>, oks: seq<bool>)
    requires |msgs| == |envs| == |oks| && TrackerWorks(msgs, envs)
    ensures CountTracked(msgs, envs, oks, Success) == CountOf(oks, true)
    ensures CountTracked(msgs, envs, oks, Error) == CountOf(oks, false)
    ensures CountTracked(msgs, envs, oks, MessageProcessed) == |msgs|
    ensures CountTracked(msgs, envs, oks, Received) == CountDecoded(msgs)
  {
    if msgs != [] {
      var n := |msgs| - 1;
      assert TrackerWorks(msgs[..n], envs[..n]) by {
        assert forall i :: 0 <= i < n ==> msgs[..n][i] == msgs[i] && envs[..n][i] == envs[i];
      }
      AllTracked(msgs[..n], envs[..n], oks[..n]);
      assert AllUp(envs[n].trackerUp);
    }
  }

  function CountDecoded(msgs: seq<KafkaMessage>): nat
  {
    if msgs == [] then 0 else CountDecoded(msgs[..|msgs| - 1]) + if msgs[|msgs| - 1].decoded.Some? then 1 else 0
  }
}
