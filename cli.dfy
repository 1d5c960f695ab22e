/**
 * The command line of main.go: the chain of flag checks that either ends the
 * program with a message or builds the run's configuration, the plan-type
 * renaming, and main.go's own copies of the pool configuration and of URL
 * selection. Flag parsing itself (pflag), the help flag and JSON syntax
 * checking are not modelled: the parsed values, and whether the request body
 * parsed as JSON, are inputs.
 */
module Cli {
  import opened Wrappers
  import opened Ints
  import Text
  import Relay
  import Setup

  // ---------------------------------------------------------------------------
  // Flag validation (main.go:78-125)
  // ---------------------------------------------------------------------------

  /** The parsed flags; `requestIsJSON` says whether `-r` unmarshals as JSON. */
  datatype Flags = Flags(
    chain: string,
    env: string,
    planType: string,
    executions: Int64,
    request: string,
    requestIsJSON: bool,
    local: bool,
    successBodies: bool,
    overrideURL: string,
    goroutines: Int64,
    delay: Int64)

  const AllFlagsRequired: string :=
    "All flags are required. They are -c for chain, -e for environment, -p for planType, -x for executions, -r for request."
  const EnvironmentInvalid: string := "Environment must be either 'production' or 'staging'"
  const PlanTypeInvalid: string := "Plan type must be either 'starter' or 'enterprise'"
  const StarterLocked: string :=
    "Starter plans are locked at 30 requests per second to avoid hitting the throughput limit."
  const EnterpriseNeedsGoroutines: string := "For enterprise plans, the --goroutines, -g flag is required."
  const ExecutionsInvalid: string := "executions must be a valid integer"
  const RequestInvalid: string := "request must be a valid JSON RPC body"

  /** The plan names the portal uses. */
  const FreeTier: string := "FREETIER_V0"
  const EnterpriseTier: string := "ENTERPRISE"

  /** `planTypeMap[planType]`; a missing key reads as the empty string. */
  function MapPlanType(planType: string): (tier: string)
    ensures planType == Relay.PlanTypeStarter ==> tier == FreeTier
    ensures planType == Relay.PlanTypeEnterprise ==> tier == EnterpriseTier
    ensures planType != Relay.PlanTypeStarter && planType != Relay.PlanTypeEnterprise ==> tier == ""
  {
    var planTypeMap := map[Relay.PlanTypeStarter := FreeTier, Relay.PlanTypeEnterprise := EnterpriseTier];
    if planType in planTypeMap then planTypeMap[planType] else ""
  }

  /** What `main` printed, and the configuration it runs with, or `None` when it exits. */
  datatype Outcome = Outcome(printed: seq<string>, config: Option<Relay.Config>)

  /** One of the required flags is empty, or `-x` is zero. */
  predicate MissingRequired(f: Flags) {
    f.chain == "" || f.env == "" || f.planType == "" || f.executions == 0 || f.request == ""
  }

  /** The flags pass every check of `main`. */
  predicate Accepted(f: Flags) {
    && !MissingRequired(f)
    && (f.env == Relay.EnvProd || f.env == Relay.EnvStaging)
    && (f.planType == Relay.PlanTypeStarter || f.planType == Relay.PlanTypeEnterprise)
    && !(f.planType == Relay.PlanTypeEnterprise && f.goroutines == 0)
    && f.requestIsJSON
  }

  /** The configuration `main` builds from accepted flags. */
  function ConfigOf(f: Flags): Relay.Config {
    Relay.Config(f.env, MapPlanType(f.planType), f.chain, f.request, f.overrideURL, f.executions,
                 f.goroutines, Wrap64(f.delay * Relay.Millisecond), f.local, f.successBodies)
  }

  /**
   * The check chain of `main`, in order: required flags, environment, plan
   * type, the starter notice (printed, not fatal), enterprise workers, the
   * executions round trip through text, and the request body.
   */
  function CheckFlags(f: Flags): (r: Outcome)
    ensures r.config.Some? <==> Accepted(f)
    ensures Accepted(f) ==> r.config == Some(ConfigOf(f))
    ensures MissingRequired(f) ==> r == Outcome([AllFlagsRequired], None)
    ensures !MissingRequired(f) && f.env != Relay.EnvProd && f.env != Relay.EnvStaging
            ==> r == Outcome([EnvironmentInvalid], None)
    ensures !MissingRequired(f) && (f.env == Relay.EnvProd || f.env == Relay.EnvStaging)
            && f.planType != Relay.PlanTypeStarter && f.planType != Relay.PlanTypeEnterprise
            ==> r == Outcome([PlanTypeInvalid], None)
    ensures f.planType == Relay.PlanTypeEnterprise && f.goroutines == 0
            && !MissingRequired(f) && (f.env == Relay.EnvProd || f.env == Relay.EnvStaging)
            ==> r == Outcome([EnterpriseNeedsGoroutines], None)
    ensures StarterLocked in r.printed <==>
            && !MissingRequired(f) && (f.env == Relay.EnvProd || f.env == Relay.EnvStaging)
            && f.planType == Relay.PlanTypeStarter && f.goroutines > 30
    ensures ExecutionsInvalid !in r.printed
    ensures Accepted(f.(requestIsJSON := true)) && !f.requestIsJSON ==>
            r.config.None? && r.printed != [] && r.printed[|r.printed| - 1] == RequestInvalid
  {
    if MissingRequired(f) then Outcome([AllFlagsRequired], None)
    else if f.env != Relay.EnvProd && f.env != Relay.EnvStaging then Outcome([EnvironmentInvalid], None)
    else if f.planType != Relay.PlanTypeStarter && f.planType != Relay.PlanTypeEnterprise then Outcome([PlanTypeInvalid], None)
    else
      Text.AtoiItoa(f.executions);
      var notice := if f.planType == Relay.PlanTypeStarter && f.goroutines > 30 then [StarterLocked] else [];
      if f.planType == Relay.PlanTypeEnterprise && f.goroutines == 0 then Outcome(notice + [EnterpriseNeedsGoroutines], None)
      else if Text.Atoi(Text.Itoa(f.executions)).None? then Outcome(notice + [ExecutionsInvalid], None)
      else if !f.requestIsJSON then Outcome(notice + [RequestInvalid], None)
      else Outcome(notice, Some(ConfigOf(f)))
  }

  /** The executions check can never fire: every 64-bit count reads back from its decimal text. */
  lemma ExecutionsCheckNeverFails(executions: Int64)
    ensures Text.Atoi(Text.Itoa(executions)) == Some(executions as int)
  {
    Text.AtoiItoa(executions);
  }

  /** Negative executions pass the checks; making the results channel then panics. */
  lemma NegativeExecutionsAccepted(f: Flags)
    requires Accepted(f.(executions := 1)) && f.executions < 0
    ensures CheckFlags(f).config.Some? && CheckFlags(f).config.value.Executions < 0
  {
    assert Accepted(f);
  }

  // ---------------------------------------------------------------------------
  // The worker pool of main.go (main.go:256-309)
  // ---------------------------------------------------------------------------

  /** main.go's `getGoroutinesConfig`: it pins the renamed starter plan, `FREETIER_V0`. */
  function GetGoroutinesConfig(planType: string, goroutines: Int64, delay: Int64): (c: Relay.GoroutinesConfig)
    ensures planType == FreeTier ==> c == Relay.GoroutinesConfig(30, 1_000 * Relay.Millisecond)
    ensures planType != FreeTier ==> c == Relay.GoroutinesConfig(goroutines, delay)
  {
    if planType == FreeTier then Relay.GoroutinesConfig(30, 1_000 * Relay.Millisecond)
    else Relay.GoroutinesConfig(goroutines, delay)
  }

  /** On the renamed plan types, main.go's pool configuration is relay/relay.go's on the original names. */
  lemma GoroutinesConfigAgrees(planType: string, goroutines: Int64, delay: Int64)
    requires planType == Relay.PlanTypeStarter || planType == Relay.PlanTypeEnterprise
    ensures GetGoroutinesConfig(MapPlanType(planType), goroutines, delay)
            == Relay.GetGoroutinesConfig(planType, goroutines, delay)
  {
  }

  /**
   * For a run `main` accepts, the pool starts exactly when the plan is starter
   * (whatever -g and -d say) or there is at least one worker and the delay in
   * nanoseconds, after 64-bit wrap-around, is not negative; otherwise
   * `runInGoroutines` panics with the validation error.
   */
  lemma AcceptedPoolStarts(f: Flags)
    requires Accepted(f)
    ensures var c := CheckFlags(f).config.value;
      Relay.ValidateConfig(GetGoroutinesConfig(c.PlanType, c.Goroutines, c.Delay)).None?
      <==> f.planType == Relay.PlanTypeStarter || (f.goroutines >= 1 && Wrap64(f.delay * Relay.Millisecond) >= 0)
  {
  }

  /** An enterprise run with a negative worker count passes the flag checks but panics in the pool. */
  lemma NegativeWorkersPanic(f: Flags)
    requires Accepted(f) && f.planType == Relay.PlanTypeEnterprise && f.goroutines < 0
    ensures var c := CheckFlags(f).config.value;
      Relay.ValidateConfig(GetGoroutinesConfig(c.PlanType, c.Goroutines, c.Delay)) == Some(Relay.GoroutinesError)
  {
  }

  // ---------------------------------------------------------------------------
  // URL and key selection of main.go (main.go:560-598)
  // ---------------------------------------------------------------------------

  /**
   * main.go's `getURLStringAndKey`: an override is returned with an empty key;
   * a dummy id is replaced from the prompt and the recursive call's answer is
   * returned as it is; otherwise the URL is built from the id and the key read
   * from the same entry.
   */
  function GetURLStringAndKey(t: Relay.Target, answers: seq<Relay.PortalAppData>): Result<(string, string), Relay.Halt>
    decreases |answers|
  {
    if t.overrideURL != "" then Ok((t.overrideURL, ""))
    else
      var appID := Relay.Lookup(t.appIDs, t.env, t.planType).id;
      if Relay.IsDummy(appID) then
        if answers == [] || answers[0].id == "" then Err(Relay.ExitedForDummyID)
        else
          Relay.DummyEntryPresent(t);
          GetURLStringAndKey(t.(appIDs := Relay.Store(t.appIDs, t.env, t.planType, answers[0])), answers[1..])
      else
        Ok((Relay.BuildURL(t.local, t.env, t.chain, appID), Relay.Lookup(t.appIDs, t.env, t.planType).key))
  }

  /**
   * main.go's selection is the intended one of relay/relay.go: the same halts,
   * and the same URL and key, except that an override comes with an empty key.
   */
  lemma {:induction false} GetURLStringAndKeyIsResolve(t: Relay.Target, answers: seq<Relay.PortalAppData>)
    ensures GetURLStringAndKey(t, answers).Ok? <==> Relay.Resolve(t, answers).Ok?
    ensures GetURLStringAndKey(t, answers).Err? ==> GetURLStringAndKey(t, answers).error == Relay.Resolve(t, answers).error
    ensures GetURLStringAndKey(t, answers).Ok? ==>
      var t2 := Relay.Resolve(t, answers).value;
      GetURLStringAndKey(t, answers).value == (t2.url, if t.overrideURL != "" then "" else t2.secretKey)
    decreases |answers|
  {
    if t.overrideURL == "" {
      var appID := Relay.Lookup(t.appIDs, t.env, t.planType).id;
      if Relay.IsDummy(appID) && answers != [] && answers[0].id != "" && t.env in t.appIDs {
        GetURLStringAndKeyIsResolve(t.(appIDs := Relay.Store(t.appIDs, t.env, t.planType, answers[0])), answers[1..]);
      }
    }
  }

  // ---------------------------------------------------------------------------
  // Which .env keys a dummy-id update writes (main.go:231-254, 569, 855-895)
  // ---------------------------------------------------------------------------

  /** The environment variables `gatherAppIDs` reads for an environment and renamed plan type. */
  function GatheredKeyNames(env: string, tier: string): Option<(string, string)> {
    if env == Relay.EnvProd && tier == FreeTier then Some((Setup.ProductionStarterAppID, Setup.ProductionStarterKey))
    else if env == Relay.EnvProd && tier == EnterpriseTier then Some((Setup.ProductionEnterpriseAppID, Setup.ProductionEnterpriseKey))
    else if env == Relay.EnvStaging && tier == FreeTier then Some((Setup.StagingStarterAppID, Setup.StagingStarterKey))
    else if env == Relay.EnvStaging && tier == EnterpriseTier then Some((Setup.StagingEnterpriseAppID, Setup.StagingEnterpriseKey))
    else None
  }

  /**
   * The file update main.go runs for a dummy id: it hands `updateEnvFile` the
   * renamed plan type from the configuration (`FREETIER_V0` or `ENTERPRISE`).
   */
  function DummyUpdateAsWritten(contents: string, env: string, tier: string, idLine: string, keyLine: string): Setup.FileUpdate {
    Setup.EnvFileUpdate(contents, env, tier, idLine, keyLine)
  }

  /**
   * `getAppIDAndKeyKeys` knows only `starter` by name, so for a starter run
   * the new id and key are written under the enterprise variables, which the
   * next run reads for the enterprise plan.
   */
  lemma StarterUpdateWritesEnterpriseKeys(contents: string, idLine: string, keyLine: string)
    requires Setup.Terminated(contents)
    requires '\n' !in Text.TrimSpace(idLine) && '\n' !in Text.TrimSpace(keyLine)
    requires Text.TrimSpace(idLine) != ""
    ensures var u := DummyUpdateAsWritten(contents, Relay.EnvProd, FreeTier, idLine, keyLine);
      && Setup.Assignment(Setup.ProductionEnterpriseAppID, u.appID) in Text.Split(u.contents, '\n')
      && GatheredKeyNames(Relay.EnvProd, FreeTier) == Some((Setup.ProductionStarterAppID, Setup.ProductionStarterKey))
      && GatheredKeyNames(Relay.EnvProd, EnterpriseTier) == Some((Setup.ProductionEnterpriseAppID, Setup.ProductionEnterpriseKey))
  {
    Setup.EnvFileUpdateWrites(contents, Relay.EnvProd, FreeTier, idLine, keyLine);
  }

  /** The original plan name of a renamed one. */
  function UnmapPlanType(tier: string): (planType: string)
    ensures tier == FreeTier ==> planType == Relay.PlanTypeStarter
    ensures tier != FreeTier ==> planType == Relay.PlanTypeEnterprise
  {
    if tier == FreeTier then Relay.PlanTypeStarter else Relay.PlanTypeEnterprise
  }

  /** The file update with the original plan name, as relay/relay.go hands it over. */
  function DummyUpdate(contents: string, env: string, tier: string, idLine: string, keyLine: string): Setup.FileUpdate {
    Setup.EnvFileUpdate(contents, env, UnmapPlanType(tier), idLine, keyLine)
  }

  /**
   * With the original plan name, a non-blank id and key are written under
   * exactly the variables `gatherAppIDs` reads for the same environment and
   * plan, so the next run finds them where this run stored them.
   */
  lemma DummyUpdateWritesGatheredKeys(contents: string, env: string, tier: string, idLine: string, keyLine: string)
    requires GatheredKeyNames(env, tier).Some?
    requires Setup.Terminated(contents)
    requires '\n' !in Text.TrimSpace(idLine) && '\n' !in Text.TrimSpace(keyLine)
    ensures var u := DummyUpdate(contents, env, tier, idLine, keyLine);
            var (idKey, keyKey) := GatheredKeyNames(env, tier).value;
      && Setup.Terminated(u.contents)
      && (u.appID != "" ==> Setup.Assignment(idKey, u.appID) in Text.Split(u.contents, '\n'))
      && (u.key != "" ==> Setup.Assignment(keyKey, u.key) in Text.Split(u.contents, '\n'))
  {
    Setup.EnvFileUpdateWrites(contents, env, UnmapPlanType(tier), idLine, keyLine);
  }
}
