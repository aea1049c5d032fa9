/**
 * The /check endpoint: header validation, then the threat sources in order until one decides.
 */
module CheckHandler {
  import opened Records
  import opened Sequences
  import opened Table
  import opened Gate
  import BlockPersistence
  import Operations
  import Recency

  /** What a source answers when it is asked. */
  datatype Finding = Says(isThreat: bool, source: string) | Fails

  datatype Source = Source(name: string, enabled: bool, finding: Finding)

  /** The client address header, after parsing and the local network test. */
  datatype Client = Missing | Invalid | Local | Remote

  datatype Published = Published(action: string, source: string)

  /** The HTTP status, the event published and the number of sources asked. */
  datatype Response = Response(status: int, event: Option<Published>, asked: nat)

  predicate Decides(source: Source) {
    source.enabled && (source.finding.Fails? || source.finding.isThreat)
  }

  function Decision(source: Source, failOpen: bool, asked: nat): Response
    requires Decides(source)
  {
    match source.finding
    case Fails =>
      if failOpen then Response(200, Some(Published("allow", source.name + " (FailOpen)")), asked)
      else Response(500, None, asked)
    case Says(_, teller) => Response(403, Some(Published("block", teller)), asked)
  }

  /** The first source that decides does; without one the request is allowed. */
  function Judge(sources: seq<Source>, failOpen: bool, asked: nat): Response {
    if sources == [] then Response(200, Some(Published("allow", "System")), asked)
    else if Decides(sources[0]) then Decision(sources[0], failOpen, asked + 1)
    else Judge(sources[1..], failOpen, asked + if sources[0].enabled then 1 else 0)
  }

  function Respond(client: Client, sources: seq<Source>, failOpen: bool): Response {
    match client
    case Missing => Response(403, None, 0)
    case Invalid => Response(403, None, 0)
    case Local => Response(200, Some(Published("allow", "LocalNetwork")), 0)
    case Remote => Judge(sources, failOpen, 0)
  }

  class Handler {
    const threatSources: seq<Source>
    const failOpen: bool
    var events: seq<Published>
    var threatCount: nat

    constructor (threatSources: seq<Source>, failOpen: bool)
      ensures this.threatSources == threatSources && this.failOpen == failOpen
      ensures events == [] && threatCount == 0
    {
      this.threatSources, this.failOpen := threatSources, failOpen;
      events, threatCount := [], 0;
    }

    /** The loop returns early; `events` and `threatCount` are what it leaves behind. */
    method Check(client: Client) returns (status: int, ghost asked: nat)
      modifies this
      ensures var r := Respond(client, threatSources, failOpen);
              && status == r.status && asked == r.asked
              && events == old(events) + (if r.event.Some? then [r.event.value] else [])
              && threatCount == old(threatCount) + (if client == Remote && r.status == 403 then 1 else 0)
    {
      asked := 0;
      if client == Missing || client == Invalid {
        return 403, 0;
      }
      if client == Local {
        events := events + [Published("allow", "LocalNetwork")];
        return 200, 0;
      }
      var i := 0;
      while i < |threatSources|
        invariant 0 <= i <= |threatSources|
        invariant events == old(events) && threatCount == old(threatCount)
        invariant Judge(threatSources, failOpen, 0) == Judge(threatSources[i..], failOpen, asked)
      {
        var source := threatSources[i];
        if source.enabled {
          asked := asked + 1;
          if source.finding.Fails? {
            if failOpen {
              events := events + [Published("allow", source.name + " (FailOpen)")];
              return 200, asked;
            }
            return 500, asked;
          }
          if source.finding.isThreat {
            threatCount := threatCount + 1;
            events := events + [Published("block", source.finding.source)];
            return 403, asked;
          }
        }
        i := i + 1;
      }
      events := events + [Published("allow", "System")];
      return 200, asked;
    }
  }

  // ---------- what the answer means ----------

  predicate SaysSafe(source: Source) {
    source.enabled ==> source.finding.Says? && !source.finding.isThreat
  }

  predicate Trips(sources: seq<Source>, i: int) {
    && 0 <= i < |sources| && sources[i].enabled && sources[i].finding.Says? && sources[i].finding.isThreat
    && forall j :: 0 <= j < i && sources[j].enabled ==> sources[j].finding.Says?
  }

  predicate Breaks(sources: seq<Source>, i: int) {
    && 0 <= i < |sources| && sources[i].enabled && sources[i].finding.Fails?
    && forall j :: 0 <= j < i ==> SaysSafe(sources[j])
  }

  /** Without deciding sources the request is allowed, and only then by "System". */
  lemma {:induction false} AllSafe(sources: seq<Source>, failOpen: bool, asked: nat)
    ensures (forall i :: 0 <= i < |sources| ==> SaysSafe(sources[i]))
       <==> (forall i :: 0 <= i < |sources| ==> !Decides(sources[i]))
    ensures (forall i :: 0 <= i < |sources| ==> SaysSafe(sources[i]))
        ==> Judge(sources, failOpen, asked).status == 200
    ensures !failOpen && Judge(sources, failOpen, asked).status == 200
        ==> forall i :: 0 <= i < |sources| ==> SaysSafe(sources[i])
    decreases |sources|
  {
    if sources == [] {
    } else {
      assert forall i :: 0 < i < |sources| ==> sources[i] == sources[1..][i - 1];
      AllSafe(sources[1..], failOpen, asked + if sources[0].enabled then 1 else 0);
    }
  }

  /** A threat decides exactly when no enabled source fails before the first one. */
  lemma {:induction false} ThreatDecides(sources: seq<Source>, failOpen: bool, asked: nat)
    ensures Judge(sources, failOpen, asked).status == 403 <==> exists i :: Trips(sources, i)
    decreases |sources|
  {
    if sources == [] {
    } else {
      var rest := sources[1..];
      assert forall i :: 0 < i < |sources| ==> sources[i] == rest[i - 1];
      if Decides(sources[0]) {
        if sources[0].finding.Says? {
          assert Trips(sources, 0);
        }
      } else {
        ThreatDecides(rest, failOpen, asked + if sources[0].enabled then 1 else 0);
        if i :| Trips(sources, i) {
          assert Trips(rest, i - 1);
        }
        if i :| Trips(rest, i) {
          assert Trips(sources, i + 1);
        }
      }
    }
  }

  /** A failure decides exactly when every source before the first one says safe. */
  lemma {:induction false} FailureDecides(sources: seq<Source>, asked: nat)
    ensures Judge(sources, false, asked).status == 500 <==> exists i :: Breaks(sources, i)
    decreases |sources|
  {
    if sources == [] {
    } else {
      var rest := sources[1..];
      assert forall i :: 0 < i < |sources| ==> sources[i] == rest[i - 1];
      if Decides(sources[0]) {
        if sources[0].finding.Fails? {
          assert Breaks(sources, 0);
        }
      } else {
        FailureDecides(rest, asked + if sources[0].enabled then 1 else 0);
        if i :| Breaks(sources, i) {
          assert Breaks(rest, i - 1);
        }
        if i :| Breaks(rest, i) {
          assert Breaks(sources, i + 1);
        }
      }
    }
  }

  /**
   * The source loop for a remote client. Fail-closed, 200 means that every enabled source says safe
   * and 500 that one fails after only safe ones; in both modes 403 means that an enabled source says
   * threat and none before it fails; fail-open never answers 500.
   */
  lemma SourceLoop(sources: seq<Source>, failOpen: bool)
    ensures var status := Respond(Remote, sources, failOpen).status;
            && (status == 403 <==> exists i :: Trips(sources, i))
            && (!failOpen ==> (status == 200 <==> forall i :: 0 <= i < |sources| ==> SaysSafe(sources[i])))
            && (!failOpen ==> (status == 500 <==> exists i :: Breaks(sources, i)))
            && (failOpen ==> status == 200 || status == 403)
  {
    AllSafe(sources, failOpen, 0);
    ThreatDecides(sources, failOpen, 0);
    FailureDecides(sources, 0);
    if failOpen {
      FailOpenAnswers(sources, 0);
    }
  }

  lemma {:induction false} FailOpenAnswers(sources: seq<Source>, asked: nat)
    ensures Judge(sources, true, asked).status == 200 || Judge(sources, true, asked).status == 403
    decreases |sources|
  {
    if sources == [] || Decides(sources[0]) {
    } else {
      FailOpenAnswers(sources[1..], asked + if sources[0].enabled then 1 else 0);
    }
  }

  function IsEnabled(): Source -> bool {
    (s: Source) => s.enabled
  }

  /** Disabled sources may stand anywhere: they change nothing, not even which sources are asked. */
  lemma {:induction false} DisabledSourcesAreInvisible(sources: seq<Source>, failOpen: bool, asked: nat)
    ensures Judge(sources, failOpen, asked) == Judge(Keep(IsEnabled(), sources), failOpen, asked)
    decreases |sources|
  {
    if sources == [] {
    } else {
      var p := IsEnabled();
      KeepStep(p, sources);
      DisabledSourcesAreInvisible(sources[1..], failOpen, asked + if sources[0].enabled then 1 else 0);
    }
  }

  /** Source `i` is the first enabled one that fails or says threat; all enabled ones before it say safe. */
  predicate FirstToDecide(sources: seq<Source>, i: int) {
    && 0 <= i < |sources| && sources[i].enabled && (sources[i].finding.Fails? || sources[i].finding.isThreat)
    && forall j :: 0 <= j < i ==> SaysSafe(sources[j])
  }

  /** The number of enabled sources. */
  function EnabledIn(sources: seq<Source>): nat {
    |Keep(IsEnabled(), sources)|
  }

  /** The response that source `i` brings about. */
  function Decided(sources: seq<Source>, i: int, failOpen: bool, asked: nat): Response
    requires 0 <= i < |sources|
  {
    var upTo := asked + EnabledIn(sources[..i + 1]);
    match sources[i].finding
    case Says(_, teller) => Response(403, Some(Published("block", teller)), upTo)
    case Fails =>
      if failOpen then Response(200, Some(Published("allow", sources[i].name + " (FailOpen)")), upTo)
      else Response(500, None, upTo)
  }

  lemma {:induction false} JudgeIsExact(sources: seq<Source>, failOpen: bool, asked: nat)
    ensures forall i :: FirstToDecide(sources, i) ==> Judge(sources, failOpen, asked) == Decided(sources, i, failOpen, asked)
    ensures (forall i :: 0 <= i < |sources| ==> SaysSafe(sources[i])) ==>
              Judge(sources, failOpen, asked) == Response(200, Some(Published("allow", "System")), asked + EnabledIn(sources))
    decreases |sources|
  {
    if sources == [] {
    } else {
      var rest := sources[1..];
      KeepStep(IsEnabled(), sources);
      JudgeIsExact(rest, failOpen, asked + if sources[0].enabled then 1 else 0);
      forall i | FirstToDecide(sources, i)
        ensures Judge(sources, failOpen, asked) == Decided(sources, i, failOpen, asked)
      {
        DeciderStep(sources, i);
      }
      if forall i :: 0 <= i < |sources| ==> SaysSafe(sources[i]) {
        assert SaysSafe(sources[0]);
        assert forall i :: 0 <= i < |rest| ==> rest[i] == sources[i + 1];
      }
    }
  }

  /** The first source decides, or the same one among the rest. */
  lemma DeciderStep(sources: seq<Source>, i: int)
    requires FirstToDecide(sources, i)
    ensures i == 0 ==> Decides(sources[0]) && EnabledIn(sources[..1]) == 1
    ensures i > 0 ==> !Decides(sources[0]) && FirstToDecide(sources[1..], i - 1) && sources[1..][i - 1] == sources[i]
    ensures i > 0 ==> EnabledIn(sources[..i + 1]) == (if sources[0].enabled then 1 else 0) + EnabledIn(sources[1..][..i])
  {
    KeepStep(IsEnabled(), sources[..i + 1]);
    assert sources[..i + 1][1..] == sources[1..][..i];
    assert i > 0 ==> SaysSafe(sources[0]);
  }

  /**
   * The whole response from client and sources. A missing or invalid header is refused and a local
   * address allowed without asking anybody. Otherwise the first source that fails or says threat
   * decides, and without one the request is allowed by "System"; a refusal publishes "block" with that
   * source's finding, an error of the handler publishes nothing; and the sources asked are the enabled
   * ones up to the one that decides.
   */
  lemma ResponseIsExact(client: Client, sources: seq<Source>, failOpen: bool)
    ensures var r := Respond(client, sources, failOpen);
            && (client == Missing || client == Invalid ==> r == Response(403, None, 0))
            && (client == Local ==> r == Response(200, Some(Published("allow", "LocalNetwork")), 0))
            && (client == Remote && (forall i :: 0 <= i < |sources| ==> SaysSafe(sources[i])) ==>
                  r == Response(200, Some(Published("allow", "System")), EnabledIn(sources)))
            && (client == Remote ==> forall i :: FirstToDecide(sources, i) ==>
                  && r.asked == EnabledIn(sources[..i + 1])
                  && (sources[i].finding.Says? ==>
                        r.status == 403 && r.event == Some(Published("block", sources[i].finding.source)))
                  && (sources[i].finding.Fails? && failOpen ==>
                        r.status == 200 && r.event == Some(Published("allow", sources[i].name + " (FailOpen)")))
                  && (sources[i].finding.Fails? && !failOpen ==> r.status == 500 && r.event == None))
    ensures (exists i :: FirstToDecide(sources, i)) || (forall i :: 0 <= i < |sources| ==> SaysSafe(sources[i]))
  {
    JudgeIsExact(sources, failOpen, 0);
    SomeoneDecides(sources);
  }

  lemma {:induction false} SomeoneDecides(sources: seq<Source>)
    ensures (exists i :: FirstToDecide(sources, i)) || (forall i :: 0 <= i < |sources| ==> SaysSafe(sources[i]))
    decreases |sources|
  {
    if sources == [] {
    } else if Decides(sources[0]) {
      assert FirstToDecide(sources, 0);
    } else {
      var rest := sources[1..];
      SomeoneDecides(rest);
      assert forall i :: 0 < i < |sources| ==> sources[i] == rest[i - 1];
      if i :| FirstToDecide(rest, i) {
        assert FirstToDecide(sources, i + 1);
      }
    }
  }

  lemma DisabledSourceInserted(before: seq<Source>, disabled: Source, after: seq<Source>, failOpen: bool)
    requires !disabled.enabled
    ensures Respond(Remote, before + [disabled] + after, failOpen) == Respond(Remote, before + after, failOpen)
  {
    var p := IsEnabled();
    DisabledSourcesAreInvisible(before + [disabled] + after, failOpen, 0);
    DisabledSourcesAreInvisible(before + after, failOpen, 0);
    KeepAppend(p, before + [disabled], after);
    KeepAppend(p, before, [disabled]);
    KeepAppend(p, before, after);
    assert Keep(p, [disabled]) == [];
    assert Keep(p, before) + [] == Keep(p, before);
  }

  // ---------- the whole gate ----------

  /** The switches `buildThreatSources` reads: both features, and whether an API key is set. */
  datatype Deployment = Deployment(activeDefence: bool, abuseIPDB: bool, apiKey: bool)
  {
    /** The AbuseIPDB source is built, and `Enabled` because it has a key. */
    predicate Asks() { abuseIPDB && apiKey }
  }

  /** The record's own source, which the event of a block names. */
  function Teller(source: Records.Source): string {
    match source
    case NoSource => ""
    case AbuseIPDB => "AbuseIPDB"
    case ActiveDefence => "ActiveDefence"
  }

  /** The AbuseIPDB source, if it is built. */
  function Lookup(d: Deployment, reply: Reply): seq<Source> {
    if !d.abuseIPDB then []
    else [Source("AbuseIPDB", d.apiKey, if reply.Verdict? then Says(reply.isThreat, Teller(reply.source)) else Fails)]
  }

  /** `buildThreatSources` puts active defence first; without a key the AbuseIPDB source is disabled. */
  function BuildSources(d: Deployment, honeytoken: bool, reply: Reply): seq<Source> {
    if d.activeDefence
    then [Source("ActiveDefence", true, Says(honeytoken, "ActiveDefence"))] + Lookup(d, reply)
    else Lookup(d, reply)
  }

  lemma LookupAnswers(d: Deployment, reply: Reply, failOpen: bool, asked: nat)
    ensures var r := Judge(Lookup(d, reply), failOpen, asked);
            (r.status, r.event) == Answer(d, reply, failOpen)
  {
    var sources := Lookup(d, reply);
    if d.abuseIPDB {
      assert sources[1..] == [];
      assert Judge([], failOpen, asked).event == Some(Published("allow", "System"));
      assert Judge([], failOpen, asked + 1).event == Some(Published("allow", "System"));
      assert "AbuseIPDB" + " (FailOpen)" == "AbuseIPDB (FailOpen)";
    }
  }

  /** Status and event of a request that active defence lets pass. */
  function Answer(d: Deployment, reply: Reply, failOpen: bool): (int, Option<Published>) {
    if !d.Asks() then (200, Some(Published("allow", "System")))
    else if !reply.Verdict? then
      (if failOpen then (200, Some(Published("allow", "AbuseIPDB (FailOpen)"))) else (500, None))
    else if reply.isThreat then (403, Some(Published("block", Teller(reply.source))))
    else (200, Some(Published("allow", "System")))
  }

  /** What the handler answers and publishes for each deployment, without the loop. */
  lemma DeploymentAnswers(d: Deployment, honeytoken: bool, reply: Reply, failOpen: bool)
    ensures var r := Respond(Remote, BuildSources(d, honeytoken, reply), failOpen);
            (r.status, r.event) == (if d.activeDefence && honeytoken then (403, Some(Published("block", "ActiveDefence")))
                                    else Answer(d, reply, failOpen))
  {
    var sources := BuildSources(d, honeytoken, reply);
    LookupAnswers(d, reply, failOpen, 0);
    LookupAnswers(d, reply, failOpen, 1);
    if d.activeDefence {
      assert sources[1..] == Lookup(d, reply);
    }
  }

  /**
   * End to end, for every deployment and every request: once a honeytoken report has written, a later
   * request before the block ends is answered 403 if and only if its header is missing or invalid, or it
   * comes from outside the local networks and either asks for a honeytoken with active defence on, or
   * the AbuseIPDB source is built, has its key and can read the block.
   */
  lemma BlockedRequestsGet403(config: Config, s: State, ip: IP, parses: bool, now: Instant, faults: Faults,
                              ops: seq<Op>, i: nat, client: Client, d: Deployment, honeytoken: bool, failOpen: bool)
    requires Sane(config) && config.threshold <= 100
    requires Keyed(s.l2) && Recency.Distinct(s.l1)
    requires Ordered(ops, now) && Writes(s, ip, parses, faults)
    requires i < |ops| && ops[i].Check? && ops[i].ip == ip && ops[i].now < Operations.EndOfBlock(config, now)
    ensures var t := Step(config, s, ReportThreat(ip, parses, now, faults)).state;
            var readable := ops[i].faults.read ==> Recency.Find(Run(config, t, ops[..i]).l1, ip).Some?;
            && |Visible(config, t, ops)| == |ops|
            && (Respond(client, BuildSources(d, honeytoken, Visible(config, t, ops)[i].0), failOpen).status == 403
                <==> match client
                     case Missing => true
                     case Invalid => true
                     case Local => false
                     case Remote => (d.activeDefence && honeytoken) || (d.Asks() && readable))
  {
    BlockPersistence.BlockPersists(config, s, ip, parses, now, faults, ops, i);
    var t := Step(config, s, ReportThreat(ip, parses, now, faults)).state;
    DeploymentAnswers(d, honeytoken, Visible(config, t, ops)[i].0, failOpen);
  }

  /**
   * So active defence alone does not block: without a usable AbuseIPDB source, whether it is switched
   * off or has no key, an address blocked a moment ago gets 200 on every other path.
   */
  lemma BlockIsNotReadWithoutSource(config: Config, ip: IP, d: Deployment, failOpen: bool)
    requires Sane(config) && 0 < config.threshold <= 100 && BlockedUntil(config, 1) > 1
    requires !d.Asks()
    ensures var t := Step(config, EMPTY, ReportThreat(ip, true, 1, NO_FAULTS)).state;
            var check := Check(ip, 1, 1, NoAnswer, NO_FAULTS);
            && ip in t.l2 && t.l2[ip].status == Threat && t.l2[ip].Live(1)
            && BlockPersistence.SaysThreat((Step(config, t, check).reply, Step(config, t, check).asked))
            && Respond(Remote, BuildSources(d, false, Step(config, t, check).reply), failOpen).status == 200
  {
    var t := Trip(config, EMPTY, ip, true, 1, NO_FAULTS);
    var check := Check(ip, 1, 1, NoAnswer, NO_FAULTS);
    BlockPersistence.ReportBlocks(config, EMPTY, ip, true, 1, NO_FAULTS);
    BlockPersistence.StepKeepsBlocked(config, t, ip, BlockedUntil(config, 1), check);
    DeploymentAnswers(d, false, Step(config, t, check).reply, failOpen);
  }
}
