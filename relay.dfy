/**
 * relay/relay.go: what one relay's reply becomes (`RelayResult`), the
 * worker-pool configuration rules, the queue fill and drain of
 * `runInGoroutines` (run sequentially: the pool's concurrency is not modelled),
 * and the choice of target URL, secret key and request headers.
 */
module Relay {
  import opened Wrappers
  import opened Ints
  import Text
  import JsonRpc

  // ---------------------------------------------------------------------------
  // Replies and their classification (the job closure, relay/relay.go:125-171)
  // ---------------------------------------------------------------------------

  /** `RelayResult`. */
  datatype RelayResult = RelayResult(
    ID: Int32,
    Err: bool,
    ErrReason: string,
    SuccessBody: string,
    Latency: Int32)

  /** `RelayError`: the `error` member of a response (section 5.1 of the JSON-RPC 2.0 Specification). */
  datatype RelayError = RelayError(Code: Int64, Message: string)

  /** What `json.Marshal(response.Result)` gave: its text (`null` when there was no result), or an error. */
  datatype Marshalled = Encoded(text: string) | MarshalFailed

  /** `Response`, as decoded from the reply body. */
  datatype Response = Response(JSONRPC: string, ID: JsonRpc.ID, Result: Marshalled, Error: RelayError)

  /**
   * What `makeJSONRPCReq` handed back: an error (request building, transport,
   * body read or JSON decoding, with its text), no response, or a decoded one.
   */
  datatype Reply = TransportError(text: string) | NilResponse | Parsed(response: Response)

  /** One request as a job saw it: the reply and the milliseconds it took (a Go int64). */
  datatype Observed = Observed(reply: Reply, elapsedMs: Int64)

  const NilReason: string := "response is nil"
  const MarshalReason: string := "failed to marshal response result to JSON"

  /** The reason text for a JSON-RPC error: `code: <Code>, message: <Message>`. */
  function ErrorReason(e: RelayError): (s: string)
    ensures Text.HasPrefix(s, "code: " + Text.Itoa(e.Code))
    ensures s == "code: " + Text.Itoa(e.Code) + ", message: " + e.Message
  {
    "code: " + Text.Itoa(e.Code) + ", message: " + e.Message
  }

  /** A reply the job counts as a success: a decoded response with an empty error message whose result encoded. */
  predicate IsSuccess(reply: Reply) {
    reply.Parsed? && reply.response.Error.Message == "" && reply.response.Result.Encoded?
  }

  /**
   * The job closure's result for sequence number `id`: exactly one result per
   * reply. A failure carries only its reason; a success carries only the body
   * and the latency, truncated to 32 bits as `int32(latency)` does.
   */
  function Classify(id: Int32, obs: Observed): (r: RelayResult)
    ensures r.ID == id
    ensures r.Err <==> !IsSuccess(obs.reply)
    ensures r.Err ==> r.Latency == 0 && r.SuccessBody == ""
    ensures !r.Err ==> r.ErrReason == "" && r.SuccessBody == obs.reply.response.Result.text
                       && r.Latency == Wrap32(obs.elapsedMs)
    ensures obs.reply.TransportError? ==> r.ErrReason == obs.reply.text
    ensures obs.reply.NilResponse? ==> r.ErrReason == NilReason
    ensures obs.reply.Parsed? && obs.reply.response.Error.Message != ""
            ==> r.ErrReason == ErrorReason(obs.reply.response.Error)
    ensures obs.reply.Parsed? && obs.reply.response.Error.Message == "" && obs.reply.response.Result.MarshalFailed?
            ==> r.ErrReason == MarshalReason
  {
    match obs.reply
    case TransportError(text) => RelayResult(id, true, text, "", 0)
    case NilResponse => RelayResult(id, true, NilReason, "", 0)
    case Parsed(resp) =>
      if resp.Error.Message != "" then
        RelayResult(id, true, ErrorReason(resp.Error), "", 0)
      else
        match resp.Result
        case MarshalFailed => RelayResult(id, true, MarshalReason, "", 0)
        case Encoded(text) => RelayResult(id, false, "", text, Wrap32(obs.elapsedMs))
  }

  /** The results of `n` jobs drained one after another, job `i` drawing sequence number `i + 1`. */
  function Dispatched(n: nat, reply: nat -> Observed): (rs: seq<RelayResult>)
  {
    if n == 0 then [] else Dispatched(n - 1, reply) + [Classify(Wrap32(n), reply(n - 1))]
  }

  /** `n` jobs give `n` results, job `i` numbered `i + 1` while the count fits the int32 counter. */
  lemma {:induction false} DispatchedNumbering(n: nat, reply: nat -> Observed)
    ensures |Dispatched(n, reply)| == n
    ensures forall i :: 0 <= i < n ==> Dispatched(n, reply)[i] == Classify(Wrap32(i + 1), reply(i))
    ensures n <= MaxInt32 ==> forall i :: 0 <= i < n ==> Dispatched(n, reply)[i].ID == i + 1
  {
    if n > 0 {
      DispatchedNumbering(n - 1, reply);
    }
  }

  // ---------------------------------------------------------------------------
  // Worker-pool configuration (relay/relay.go:283-340)
  // ---------------------------------------------------------------------------

  /** `time.Millisecond`, in the nanoseconds a `time.Duration` counts. */
  const Millisecond: int := 1_000_000

  const PlanTypeStarter: string := "starter"
  const PlanTypeEnterprise: string := "enterprise"
  const EnvProd: string := "production"
  const EnvStaging: string := "staging"

  /** `goroutinesConfig`; `delay` is a `time.Duration` in nanoseconds. */
  datatype GoroutinesConfig = GoroutinesConfig(goroutines: Int64, delay: Int64)

  /** `getGoroutinesConfig`: the starter plan is pinned to 30 workers a second apart; other plans keep their values. */
  function GetGoroutinesConfig(planType: string, goroutines: Int64, delay: Int64): (c: GoroutinesConfig)
    ensures planType == PlanTypeStarter ==> c == GoroutinesConfig(30, 1_000 * Millisecond)
    ensures planType != PlanTypeStarter ==> c == GoroutinesConfig(goroutines, delay)
  {
    if planType == PlanTypeStarter then GoroutinesConfig(30, 1_000 * Millisecond)
    else GoroutinesConfig(goroutines, delay)
  }

  const GoroutinesError: string := "goroutines must be greater than 0"
  const DelayError: string := "delay must be greater than or equal to 0"

  /** `validateConfig`: fails iff there is no worker or the delay is negative, the worker check first. */
  function ValidateConfig(c: GoroutinesConfig): (err: Option<string>)
    ensures err.None? <==> c.goroutines >= 1 && c.delay >= 0
    ensures c.goroutines < 1 ==> err == Some(GoroutinesError)
    ensures c.goroutines >= 1 && c.delay < 0 ==> err == Some(DelayError)
  {
    if c.goroutines < 1 then Some(GoroutinesError)
    else if c.delay < 0 then Some(DelayError)
    else None
  }

  /** Whatever -g and -d say, the starter plan's configuration passes validation. */
  lemma StarterConfigIsValid(goroutines: Int64, delay: Int64)
    ensures ValidateConfig(GetGoroutinesConfig(PlanTypeStarter, goroutines, delay)) == None
  {
  }

  /** How `runInGoroutines` ended: every job ran, or it panicked before any did. */
  datatype PoolOutcome = Completed | Panicked(reason: string)

  /** The panic of `make(chan bool, executions)` for a negative size. */
  const MakeChanPanic: string := "makechan: size out of range"

  // ---------------------------------------------------------------------------
  // Target URL, secret key and headers (relay/relay.go:181-207, 251-261)
  // ---------------------------------------------------------------------------

  /** `env.PortalAppData`. */
  datatype PortalAppData = PortalAppData(id: string, key: string)

  /** `AppIDs`: environment, then plan type, to the Portal app's id and secret key. */
  type AppTable = map<string, map<string, PortalAppData>>

  /** `appIDs[env][planType]`, with Go's zero value for a missing key at either level. */
  function Lookup(t: AppTable, env: string, planType: string): (d: PortalAppData)
    ensures env in t && planType in t[env] ==> d == t[env][planType]
    ensures !(env in t && planType in t[env]) ==> d == PortalAppData("", "")
  {
    if env in t && planType in t[env] then t[env][planType] else PortalAppData("", "")
  }

  /** `appIDs[env][planType] = d`, for an `env` already in the table. */
  function Store(t: AppTable, env: string, planType: string, d: PortalAppData): (t': AppTable)
    requires env in t
    ensures Lookup(t', env, planType) == d
    ensures forall e, p :: (e, p) != (env, planType) ==> Lookup(t', e, p) == Lookup(t, e, p)
  {
    t[env := t[env][planType := d]]
  }

  /** The Portal URL for a chain and app id: the local gateway, or grove.city for production and grove.town otherwise. */
  function BuildURL(local: bool, env: string, chain: string, appID: string): (url: string)
    ensures local ==> url == "http://" + chain + ".localhost:3000/v1/" + appID
    ensures !local && env == EnvProd ==> url == "https://" + chain + ".rpc.grove.city/v1/" + appID
    ensures !local && env != EnvProd ==> url == "https://" + chain + ".rpc.grove.town/v1/" + appID
  {
    if local then "http://" + chain + ".localhost:3000/v1/" + appID
    else
      var domain := if env == EnvProd then "city" else "town";
      "https://" + chain + ".rpc.grove." + domain + "/v1/" + appID
  }

  /** Every Portal URL ends in `/v1/<appID>`. */
  lemma BuildURLEndsWithAppID(local: bool, env: string, chain: string, appID: string)
    ensures exists host :: BuildURL(local, env, chain, appID) == host + "/v1/" + appID
  {
    var url := BuildURL(local, env, chain, appID);
    if local {
      assert url == ("http://" + chain + ".localhost:3000") + "/v1/" + appID;
    } else if env == EnvProd {
      assert url == ("https://" + chain + ".rpc.grove.city") + "/v1/" + appID;
    } else {
      assert url == ("https://" + chain + ".rpc.grove.town") + "/v1/" + appID;
    }
  }

  /** The headers `makeJSONRPCReq` sets: always the JSON content type, the secret key only without an override. */
  function RequestHeaders(overrideURL: string, secretKey: string): (h: map<string, string>)
    ensures "Content-Type" in h && h["Content-Type"] == "application/json"
    ensures "Authorization" in h <==> overrideURL == "" && secretKey != ""
    ensures "Authorization" in h ==> h["Authorization"] == secretKey
    ensures h.Keys <= {"Content-Type", "Authorization"}
  {
    var base := map["Content-Type" := "application/json"];
    if overrideURL == "" && secretKey != "" then base["Authorization" := secretKey] else base
  }

  /** The `Util` fields that URL selection reads and writes. */
  datatype Target = Target(
    appIDs: AppTable,
    env: string,
    planType: string,
    chain: string,
    local: bool,
    overrideURL: string,
    url: string,
    secretKey: string)

  /**
   * Why URL selection ended the program: the app id was a dummy and the prompt
   * gave no usable one (`os.Exit(1)`). Storing the new id never meets a
   * missing environment (a nil inner map): a dummy id was read from that very
   * entry (`DummyEntryPresent`).
   */
  datatype Halt = ExitedForDummyID

  /** The entry URL selection ends up using. */
  function Entry(t: Target): PortalAppData {
    Lookup(t.appIDs, t.env, t.planType)
  }

  predicate IsDummy(appID: string) {
    Text.Contains(appID, "dummy")
  }

  /** A dummy id can only come from an entry present in the table, so its environment's map exists. */
  lemma DummyEntryPresent(t: Target)
    requires IsDummy(Entry(t).id)
    ensures t.env in t.appIDs && t.planType in t.appIDs[t.env]
  {
    if !(t.env in t.appIDs && t.planType in t.appIDs[t.env]) {
      NoYNoDummy("");
    }
  }

  /**
   * `setURLStringAndKey` as relay/relay.go writes it. `answers` are the
   * successive replies of the dummy-id prompt; running out of them stands for
   * a prompt that never yields an id. After the recursive call for an updated
   * id, the outer call goes on and rebuilds the URL from the id it read before
   * the update, while it reads the key from the updated table.
   */
  function ResolveAsWritten(t: Target, answers: seq<PortalAppData>): Result<Target, Halt>
    decreases |answers|
  {
    if t.overrideURL != "" then Ok(t.(url := t.overrideURL))
    else
      var appID := Entry(t).id;
      if IsDummy(appID) then
        if answers == [] || answers[0].id == "" then Err(ExitedForDummyID)
        else
          DummyEntryPresent(t);
          match ResolveAsWritten(t.(appIDs := Store(t.appIDs, t.env, t.planType, answers[0])), answers[1..])
          case Err(h) => Err(h)
          case Ok(t2) => Ok(t2.(url := BuildURL(t2.local, t2.env, t2.chain, appID), secretKey := Entry(t2).key))
      else
        Ok(t.(url := BuildURL(t.local, t.env, t.chain, appID), secretKey := Entry(t).key))
  }

  /**
   * URL selection as intended (and as main.go's `getURLStringAndKey` does it):
   * after a dummy id is replaced, the recursive call's choice stands.
   */
  function Resolve(t: Target, answers: seq<PortalAppData>): Result<Target, Halt>
    decreases |answers|
  {
    if t.overrideURL != "" then Ok(t.(url := t.overrideURL))
    else
      var appID := Entry(t).id;
      if IsDummy(appID) then
        if answers == [] || answers[0].id == "" then Err(ExitedForDummyID)
        else
          DummyEntryPresent(t);
          Resolve(t.(appIDs := Store(t.appIDs, t.env, t.planType, answers[0])), answers[1..])
      else
        Ok(t.(url := BuildURL(t.local, t.env, t.chain, appID), secretKey := Entry(t).key))
  }

  /**
   * What the intended selection guarantees: an override is used as it is, with
   * the key left alone; otherwise URL and key come from one and the same table
   * entry, whose id is not a dummy, and only that entry was changed.
   */
  lemma {:induction false} ResolveSound(t: Target, answers: seq<PortalAppData>)
    requires Resolve(t, answers).Ok?
    ensures var t2 := Resolve(t, answers).value;
      && t2.env == t.env && t2.planType == t.planType && t2.chain == t.chain
      && t2.local == t.local && t2.overrideURL == t.overrideURL
      && (t.overrideURL != "" ==> t2 == t.(url := t.overrideURL))
      && (t.overrideURL == "" ==>
            && !IsDummy(Entry(t2).id)
            && t2.url == BuildURL(t.local, t.env, t.chain, Entry(t2).id)
            && t2.secretKey == Entry(t2).key)
      && (forall e, p :: (e, p) != (t.env, t.planType) ==> Lookup(t2.appIDs, e, p) == Lookup(t.appIDs, e, p))
    decreases |answers|
  {
    if t.overrideURL == "" && IsDummy(Entry(t).id) {
      var t1 := t.(appIDs := Store(t.appIDs, t.env, t.planType, answers[0]));
      ResolveSound(t1, answers[1..]);
    }
  }

  /** Selection ends the program exactly when the entry is a dummy and no usable replacement arrives. */
  lemma {:induction false} ResolveHalts(t: Target, answers: seq<PortalAppData>)
    requires t.overrideURL == "" && IsDummy(Entry(t).id)
    requires answers == [] || answers[0].id == ""
    ensures Resolve(t, answers) == Err(ExitedForDummyID)
    ensures ResolveAsWritten(t, answers) == Err(ExitedForDummyID)
  {
  }

  /** Without a dummy id, or with an override, both versions agree. */
  lemma AsWrittenAgreesWithoutDummy(t: Target, answers: seq<PortalAppData>)
    requires t.overrideURL != "" || !IsDummy(Entry(t).id)
    ensures ResolveAsWritten(t, answers) == Resolve(t, answers)
  {
  }

  /** A text without the letter `y` is not a dummy id. */
  lemma {:induction false} NoYNoDummy(s: string)
    requires 'y' !in s
    ensures !IsDummy(s)
    decreases |s|
  {
    assert !Text.HasPrefix(s, "dummy") by {
      if |s| >= 5 { assert s[4] == "dummy"[4] || s[..5] != "dummy"; }
    }
    if |s| > 0 {
      NoYNoDummy(s[1..]);
    }
  }

  /**
   * One usable replacement for a dummy id: both versions store it and take its
   * key, but the version in relay/relay.go puts the old dummy id in the URL.
   */
  lemma ReplacedOnce(t: Target, d: PortalAppData)
    requires t.overrideURL == "" && IsDummy(Entry(t).id)
    requires d.id != "" && !IsDummy(d.id)
    ensures var t1 := t.(appIDs := Store(t.appIDs, t.env, t.planType, d), secretKey := d.key);
      && Resolve(t, [d]) == Ok(t1.(url := BuildURL(t.local, t.env, t.chain, d.id)))
      && ResolveAsWritten(t, [d]) == Ok(t1.(url := BuildURL(t.local, t.env, t.chain, Entry(t).id)))
  {
    DummyEntryPresent(t);
    var t1 := t.(appIDs := Store(t.appIDs, t.env, t.planType, d));
    assert [d][1..] == [];
    AsWrittenAgreesWithoutDummy(t1, []);
  }

  /**
   * The stale id in relay/relay.go: a production starter entry holding the
   * dummy id, replaced at the prompt by `1a2b3c4d` with key `secret`, ends with
   * the new key but a URL that still names the dummy id; the intended
   * selection names the new id.
   */
  lemma StaleAppIDInURL()
    ensures var t := Target(map[EnvProd := map[PlanTypeStarter := PortalAppData("dummy_starter_app_id", "")]],
                            EnvProd, PlanTypeStarter, "eth", false, "", "", "");
            var answers := [PortalAppData("1a2b3c4d", "secret")];
            && ResolveAsWritten(t, answers).Ok?
            && ResolveAsWritten(t, answers).value.url == BuildURL(false, EnvProd, "eth", "dummy_starter_app_id")
            && ResolveAsWritten(t, answers).value.secretKey == "secret"
            && Resolve(t, answers).Ok?
            && Resolve(t, answers).value.url == BuildURL(false, EnvProd, "eth", "1a2b3c4d")
            && Resolve(t, answers).value.secretKey == "secret"
  {
    var dummy := "dummy_starter_app_id";
    var t := Target(map[EnvProd := map[PlanTypeStarter := PortalAppData(dummy, "")]],
                    EnvProd, PlanTypeStarter, "eth", false, "", "", "");
    StarterDummyIsDummy();
    assert Entry(t).id == dummy;
    NoYNoDummy("1a2b3c4d");
    ReplacedOnce(t, PortalAppData("1a2b3c4d", "secret"));
  }

  lemma StarterDummyIsDummy()
    ensures IsDummy("dummy_starter_app_id")
  {
    Text.ContainsAt("", "dummy", "_starter_app_id");
    assert "" + "dummy" + "_starter_app_id" == "dummy_starter_app_id";
  }

  // ---------------------------------------------------------------------------
  // The relay utility (relay/relay.go:60-77, 86-179, 299-329)
  // ---------------------------------------------------------------------------

  /** `Config`, the run's settings; `Delay` is a `time.Duration` in nanoseconds. */
  datatype Config = Config(
    Env: string,
    PlanType: string,
    Chain: string,
    Request: string,
    OverrideURL: string,
    Executions: Int64,
    Goroutines: Int64,
    Delay: Int64,
    Local: bool,
    SuccessBodies: bool)

  /** `Util`. `ResultChan` is the results channel, as the sequence of results sent on it. */
  class Util {
    var AppIDs: AppTable
    var Env: string
    var PlanType: string
    var Chain: string
    var URL: string
    var SecretKey: string
    var Request: string
    var OverrideURL: string
    var Executions: Int64
    var Goroutines: Int64
    var Delay: Int64
    var Local: bool
    var SuccessBodies: bool
    var ResultChan: seq<RelayResult>
    var ResultChanClosed: bool

    /** The fields URL selection works on. */
    function Selection(): Target
      reads this
    {
      Target(AppIDs, Env, PlanType, Chain, Local, OverrideURL, URL, SecretKey)
    }

    /** The fields of `NewRelayUtil`'s struct literal, before `setURLStringAndKey` runs. */
    constructor (config: Config, appIDs: AppTable)
      ensures Selection() == Target(appIDs, config.Env, config.PlanType, config.Chain, config.Local,
                                       config.OverrideURL, "", "")
      ensures Request == config.Request && Executions == config.Executions
      ensures Goroutines == config.Goroutines && Delay == config.Delay
      ensures SuccessBodies == config.SuccessBodies
      ensures ResultChan == [] && !ResultChanClosed
    {
      AppIDs := appIDs;
      Env := config.Env;
      PlanType := config.PlanType;
      Chain := config.Chain;
      URL := "";
      SecretKey := "";
      Request := config.Request;
      OverrideURL := config.OverrideURL;
      Executions := config.Executions;
      Goroutines := config.Goroutines;
      Delay := config.Delay;
      Local := config.Local;
      SuccessBodies := config.SuccessBodies;
      ResultChan := [];
      ResultChanClosed := false;
    }

    /**
     * `setURLStringAndKey` as relay/relay.go writes it: after the recursive
     * call for a replaced dummy id it does not return, so the URL is rebuilt
     * from the id read on entry and the key read from the updated table. The
     * fields end as `ResolveAsWritten` says, or the program halts.
     */
    method SetURLStringAndKey(answers: seq<PortalAppData>) returns (halt: Option<Halt>)
      modifies this`AppIDs, this`URL, this`SecretKey
      ensures ResolveAsWritten(old(Selection()), answers).Ok? ==>
                halt.None? && Selection() == ResolveAsWritten(old(Selection()), answers).value
      ensures ResolveAsWritten(old(Selection()), answers).Err? ==>
                halt == Some(ResolveAsWritten(old(Selection()), answers).error)
      decreases |answers|
    {
      if OverrideURL != "" {
        URL := OverrideURL;
        return None;
      }
      var appID := Lookup(AppIDs, Env, PlanType).id;
      if IsDummy(appID) {
        if answers == [] || answers[0].id == "" {
          return Some(ExitedForDummyID);
        }
        DummyEntryPresent(Selection());
        AppIDs := Store(AppIDs, Env, PlanType, answers[0]);
        halt := SetURLStringAndKey(answers[1..]);
        if halt.Some? {
          return;
        }
      }
      URL := BuildURL(Local, Env, Chain, appID);
      SecretKey := Lookup(AppIDs, Env, PlanType).key;
      halt := None;
    }

    /** The headers of every request this utility sends. */
    function Headers(): (h: map<string, string>)
      reads this
      ensures "Authorization" in h <==> OverrideURL == "" && SecretKey != ""
    {
      RequestHeaders(OverrideURL, SecretKey)
    }

    /** One run of the job closure: draw the next sequence number, classify the reply, send one result. */
    method Job(counter: Int32, obs: Observed) returns (current: Int32)
      modifies this`ResultChan
      ensures current == Wrap32(counter + 1)
      ensures ResultChan == old(ResultChan) + [Classify(current, obs)]
    {
      current := Wrap32(counter + 1);
      var result := Classify(current, obs);
      ResultChan := ResultChan + [result];
    }

    /**
     * `runInGoroutines` with the job closure, its workers drained one after
     * another: validation first (a panic before anything is queued), then the
     * queue is filled with exactly `executions` tokens and closed, and each
     * token runs one job. `reply(i)` is what the `i`-th job observed.
     */
    method RunInGoroutines(config: GoroutinesConfig, executions: Int64, reply: nat -> Observed)
      returns (outcome: PoolOutcome, counter: Int32)
      modifies this`ResultChan
      ensures ValidateConfig(config).Some? ==> outcome == Panicked(ValidateConfig(config).value)
      ensures ValidateConfig(config).None? && executions < 0 ==> outcome == Panicked(MakeChanPanic)
      ensures outcome.Completed? <==> ValidateConfig(config).None? && executions >= 0
      ensures outcome.Panicked? ==> ResultChan == old(ResultChan)
      ensures outcome.Completed? ==> counter == Wrap32(executions)
                                     && ResultChan == old(ResultChan) + Dispatched(executions, reply)
    {
      counter := 0;
      var err := ValidateConfig(config);
      if err.Some? {
        return Panicked(err.value), counter;
      }
      if executions < 0 {
        return Panicked(MakeChanPanic), counter;
      }
      var tasks := new bool[executions];
      var queued := 0;
      while queued < executions
        invariant 0 <= queued <= executions
        invariant forall k :: 0 <= k < queued ==> tasks[k]
        modifies tasks
      {
        tasks[queued] := true;
        queued := queued + 1;
      }
      // The queue is closed: workers take tokens until it is empty.
      var taken := 0;
      while taken < queued
        invariant queued == executions
        invariant 0 <= taken <= queued
        invariant forall k :: 0 <= k < queued ==> tasks[k]
        invariant counter == Wrap32(taken)
        invariant ResultChan == old(ResultChan) + Dispatched(taken, reply)
      {
        var token := tasks[taken];
        assert token;
        var obs := reply(taken);
        Wrap32Step(taken);
        counter := Job(counter, obs);
        taken := taken + 1;
      }
      outcome := Completed;
    }

    /** `SendRelays`: run the pool under the plan's configuration, then close the results channel. */
    method SendRelays(reply: nat -> Observed) returns (outcome: PoolOutcome)
      modifies this`ResultChan, this`ResultChanClosed
      ensures var c := GetGoroutinesConfig(PlanType, Goroutines, Delay);
        && (outcome.Completed? <==> ValidateConfig(c).None? && Executions >= 0)
        && (outcome.Completed? ==> ResultChan == old(ResultChan) + Dispatched(Executions, reply) && ResultChanClosed)
        && (outcome.Panicked? ==> ResultChan == old(ResultChan))
    {
      var counter;
      outcome, counter := RunInGoroutines(GetGoroutinesConfig(PlanType, Goroutines, Delay), Executions, reply);
      if outcome.Completed? {
        ResultChanClosed := true;
      }
    }
  }

  /**
   * `NewRelayUtil`: build the utility and select its URL. Making the results
   * channel with a negative capacity panics first.
   */
  method NewRelayUtil(config: Config, appIDs: AppTable, answers: seq<PortalAppData>)
    returns (u: Result<Util, Option<Halt>>)
    ensures config.Executions < 0 ==> u == Err(None)
    ensures config.Executions >= 0 ==>
      var start := Target(appIDs, config.Env, config.PlanType, config.Chain, config.Local, config.OverrideURL, "", "");
      && (ResolveAsWritten(start, answers).Ok? <==> u.Ok?)
      && (u.Ok? ==> fresh(u.value) && u.value.Selection() == ResolveAsWritten(start, answers).value
                    && u.value.ResultChan == [] && u.value.Executions == config.Executions)
      && (u.Err? ==> u.error == Some(ResolveAsWritten(start, answers).error))
  {
    if config.Executions < 0 {
      return Err(None);
    }
    var util := new Util(config, appIDs);
    var halt := util.SetURLStringAndKey(answers);
    if halt.Some? {
      return Err(halt);
    }
    return Ok(util);
  }
}
