/**
 * The `.env` handling of setup/setup.go: editing one `KEY=value` line of the
 * file's text, the table from environment and plan type to key names, and the
 * first-run prompt loop that turns the answers typed in into the lines written.
 * Reading the terminal and the file, `os.Setenv` and console clearing are not
 * modelled: answers are a list of raw input lines, output a list of lines.
 */
module Setup {
  import opened Wrappers
  import Text
  import Relay

  // ---------------------------------------------------------------------------
  // Key names (env/env.go:11-19)
  // ---------------------------------------------------------------------------

  const ProductionStarterAppID: string := "PRODUCTION_STARTER_APP_ID"
  const ProductionStarterKey: string := "PRODUCTION_STARTER_KEY"
  const ProductionEnterpriseAppID: string := "PRODUCTION_ENTERPRISE_APP_ID"
  const ProductionEnterpriseKey: string := "PRODUCTION_ENTERPRISE_KEY"
  const StagingStarterAppID: string := "STAGING_STARTER_APP_ID"
  const StagingStarterKey: string := "STAGING_STARTER_KEY"
  const StagingEnterpriseAppID: string := "STAGING_ENTERPRISE_APP_ID"
  const StagingEnterpriseKey: string := "STAGING_ENTERPRISE_KEY"

  // ---------------------------------------------------------------------------
  // Editing one line (setup/setup.go:221-231)
  // ---------------------------------------------------------------------------

  /** The index of the first line starting with `prefix`, if any. */
  function FirstMatch(lines: seq<string>, prefix: string, from: nat): (r: Option<nat>)
    requires from <= |lines|
    ensures r.Some? ==> from <= r.value < |lines| && Text.HasPrefix(lines[r.value], prefix)
                        && forall j :: from <= j < r.value ==> !Text.HasPrefix(lines[j], prefix)
    ensures r.None? ==> forall j :: from <= j < |lines| ==> !Text.HasPrefix(lines[j], prefix)
    decreases |lines| - from
  {
    if from == |lines| then None
    else if Text.HasPrefix(lines[from], prefix) then Some(from)
    else FirstMatch(lines, prefix, from + 1)
  }

  /** The first line with the prefix is the one `FirstMatch` finds. */
  lemma FirstMatchIs(lines: seq<string>, prefix: string, i: nat)
    requires i < |lines| && Text.HasPrefix(lines[i], prefix)
    requires forall j :: 0 <= j < i ==> !Text.HasPrefix(lines[j], prefix)
    ensures FirstMatch(lines, prefix, 0) == Some(i)
  {
  }

  /** The line `key=value`. */
  function Assignment(key: string, value: string): string {
    key + "=" + value
  }

  /**
   * What `updateEnvValue` returns: the first line starting with `key=` becomes
   * `key=newValue` and the lines are joined again; without such a line the
   * assignment is appended with a newline.
   */
  function EnvUpdate(contents: string, key: string, newValue: string): string {
    var lines := Text.Split(contents, '\n');
    match FirstMatch(lines, key + "=", 0)
    case Some(i) => Text.Join(lines[i := Assignment(key, newValue)], '\n')
    case None => contents + Assignment(key, newValue) + "\n"
  }

  /** `updateEnvValue`: a scan over the lines that stops at the first one for the key. */
  method UpdateEnvValue(contents: string, key: string, newValue: string) returns (updated: string)
    ensures updated == EnvUpdate(contents, key, newValue)
  {
    var lines := Text.Split(contents, '\n');
    for i := 0 to |lines|
      invariant FirstMatch(lines, key + "=", 0) == FirstMatch(lines, key + "=", i)
    {
      if Text.HasPrefix(lines[i], key + "=") {
        lines := lines[i := key + "=" + newValue];
        return Text.Join(lines, '\n');
      }
    }
    return contents + key + "=" + newValue + "\n";
  }

  /** A key and a value typed on one line: neither holds a newline. */
  predicate OneLine(key: string, value: string) {
    '\n' !in key && '\n' !in value
  }

  lemma AssignmentOneLine(key: string, value: string)
    requires OneLine(key, value)
    ensures '\n' !in Assignment(key, value)
  {
  }

  /** The lines of the text after replacing line `i` by a one-line assignment. */
  lemma ReplacedLines(contents: string, i: nat, key: string, newValue: string)
    requires OneLine(key, newValue)
    requires i < |Text.Split(contents, '\n')|
    ensures var lines := Text.Split(contents, '\n');
      Text.Split(Text.Join(lines[i := Assignment(key, newValue)], '\n'), '\n') == lines[i := Assignment(key, newValue)]
  {
    var lines := Text.Split(contents, '\n');
    var ls := lines[i := Assignment(key, newValue)];
    assert forall j :: 0 <= j < |ls| ==> '\n' !in ls[j] by {
      forall j | 0 <= j < |ls| ensures '\n' !in ls[j] {
        if j != i {
          assert ls[j] == lines[j];
        }
      }
    }
    Text.SplitJoin(ls, '\n');
  }

  /**
   * With a line for the key: only the first such line is replaced, every other
   * line and the number of lines stay as they were.
   */
  lemma UpdateReplacesFirstLine(contents: string, key: string, newValue: string)
    requires OneLine(key, newValue)
    requires FirstMatch(Text.Split(contents, '\n'), key + "=", 0).Some?
    ensures var lines := Text.Split(contents, '\n');
            var i := FirstMatch(lines, key + "=", 0).value;
            var after := Text.Split(EnvUpdate(contents, key, newValue), '\n');
      && |after| == |lines|
      && after[i] == Assignment(key, newValue)
      && (forall j :: 0 <= j < |lines| && j != i ==> after[j] == lines[j])
      && (forall j :: 0 <= j < i ==> !Text.HasPrefix(lines[j], key + "="))
  {
    var lines := Text.Split(contents, '\n');
    ReplacedLines(contents, FirstMatch(lines, key + "=", 0).value, key, newValue);
  }

  /** Without a line for the key: the assignment is appended and the old text is a prefix. */
  lemma UpdateAppends(contents: string, key: string, newValue: string)
    requires FirstMatch(Text.Split(contents, '\n'), key + "=", 0).None?
    ensures Text.HasPrefix(EnvUpdate(contents, key, newValue), contents)
    ensures EnvUpdate(contents, key, newValue) == contents + Assignment(key, newValue) + "\n"
  {
    var u := EnvUpdate(contents, key, newValue);
    assert u[..|contents|] == contents;
  }

  /** A text that is empty or ends in a newline. */
  predicate Terminated(contents: string) {
    contents == [] || contents[|contents| - 1] == '\n'
  }

  /** Appending to a terminated text adds one assignment line before the final empty piece. */
  lemma AppendedLines(contents: string, key: string, newValue: string)
    requires OneLine(key, newValue) && Terminated(contents)
    ensures var lines := Text.Split(contents, '\n');
      Text.Split(contents + Assignment(key, newValue) + "\n", '\n')
        == lines[..|lines| - 1] + [Assignment(key, newValue), ""]
  {
    var a := Assignment(key, newValue);
    AssignmentOneLine(key, newValue);
    if contents == [] {
      AppendedToEmpty(a);
      Text.SplitNoSep(contents, '\n');
      assert contents + a + "\n" == a + "\n";
      assert Text.Split(contents, '\n')[..0] == [];
    } else {
      var front := contents[..|contents| - 1];
      assert contents == front + "\n";
      AppendedAfterLine(front, a);
    }
  }

  lemma AppendedToEmpty(a: string)
    requires '\n' !in a
    ensures Text.Split(a + "\n", '\n') == [a, ""]
  {
    assert a + "\n" == a + ['\n'] + "";
    Text.SplitCons(a, '\n', "");
    Text.SplitNoSep("", '\n');
  }

  lemma AppendedAfterLine(front: string, a: string)
    requires '\n' !in a
    ensures var lines := Text.Split(front + "\n", '\n');
      Text.Split(front + "\n" + a + "\n", '\n') == lines[..|lines| - 1] + [a, ""]
  {
    var before := Text.Split(front, '\n');
    assert front + "\n" == front + ['\n'] + "";
    Text.SplitSnoc(front, '\n', "");
    var lines := Text.Split(front + "\n", '\n');
    assert lines == before + [""];
    assert lines[..|lines| - 1] == before;
    var mid := front + ['\n'] + a;
    Text.SplitSnoc(front, '\n', a);
    assert Text.Split(mid, '\n') == before + [a];
    assert front + "\n" + a + "\n" == mid + ['\n'] + "";
    Text.SplitSnoc(mid, '\n', "");
    assert Text.Split(front + "\n" + a + "\n", '\n') == (before + [a]) + [""];
  }

  /**
   * On a text that is empty or ends in a newline, and for a one-line key and
   * value, updating twice is updating once, and `key=newValue` is a line of
   * the result.
   */
  lemma UpdateIdempotent(contents: string, key: string, newValue: string)
    requires OneLine(key, newValue) && Terminated(contents)
    ensures EnvUpdate(EnvUpdate(contents, key, newValue), key, newValue) == EnvUpdate(contents, key, newValue)
    ensures Assignment(key, newValue) in Text.Split(EnvUpdate(contents, key, newValue), '\n')
  {
    var a := Assignment(key, newValue);
    var prefix := key + "=";
    var lines := Text.Split(contents, '\n');
    var u := EnvUpdate(contents, key, newValue);
    assert Text.HasPrefix(a, prefix) by { assert a[..|prefix|] == prefix; }
    match FirstMatch(lines, prefix, 0)
    case Some(i) =>
      var ls := lines[i := a];
      ReplacedLines(contents, i, key, newValue);
      assert Text.Split(u, '\n') == ls;
      assert forall j :: 0 <= j < i ==> ls[j] == lines[j];
      FirstMatchIs(ls, prefix, i);
      assert ls[i := a] == ls;
      Text.JoinSplit(u, '\n');
      assert ls[i] == a;
    case None =>
      var ls := lines[..|lines| - 1] + [a, ""];
      AppendedLines(contents, key, newValue);
      assert Text.Split(u, '\n') == ls;
      var k := |lines| - 1;
      assert forall j :: 0 <= j < k ==> ls[j] == lines[j];
      assert ls[k] == a;
      FirstMatchIs(ls, prefix, k);
      assert ls[k := a] == ls;
      Text.JoinSplit(u, '\n');
      assert ls[k] == a;
  }

  /** Updating a text that is empty or ends in a newline leaves it ending in a newline. */
  lemma UpdateKeepsTerminated(contents: string, key: string, newValue: string)
    requires OneLine(key, newValue) && Terminated(contents)
    ensures Terminated(EnvUpdate(contents, key, newValue))
  {
    var lines := Text.Split(contents, '\n');
    var prefix := key + "=";
    match FirstMatch(lines, prefix, 0)
    case None =>
    case Some(i) =>
      var front := contents[..|contents| - 1];
      assert contents == front + ['\n'] + "";
      Text.SplitSnoc(front, '\n', "");
      var k := |lines| - 1;
      assert lines[k] == "";
      assert i != k;
      var ls := lines[i := Assignment(key, newValue)];
      assert ls == ls[..k] + [""];
      Text.JoinSnoc(ls[..k], '\n', "");
  }

  /** A line that does not assign the key survives an update of the key. */
  lemma UpdateKeepsOtherLine(contents: string, key: string, newValue: string, line: string)
    requires OneLine(key, newValue) && Terminated(contents)
    requires line in Text.Split(contents, '\n') && !Text.HasPrefix(line, key + "=")
    ensures line in Text.Split(EnvUpdate(contents, key, newValue), '\n')
  {
    var lines := Text.Split(contents, '\n');
    var j :| 0 <= j < |lines| && lines[j] == line;
    match FirstMatch(lines, key + "=", 0)
    case Some(i) =>
      ReplacedLines(contents, i, key, newValue);
      assert lines[i := Assignment(key, newValue)][j] == line;
    case None =>
      AppendedLines(contents, key, newValue);
      var after := lines[..|lines| - 1] + [Assignment(key, newValue), ""];
      if j < |lines| - 1 {
        assert after[j] == line;
      } else {
        if contents == [] {
          assert lines == [""];
        } else {
          var front := contents[..|contents| - 1];
          assert contents == front + ['\n'] + "";
          Text.SplitSnoc(front, '\n', "");
        }
        assert after[|after| - 1] == line;
      }
  }

  /** Without `=` in the key names, `k1=v` assigns `k2` exactly when the names are the same. */
  lemma AssignsKey(k1: string, v: string, k2: string)
    requires '=' !in k1 && '=' !in k2
    ensures Text.HasPrefix(Assignment(k1, v), k2 + "=") <==> k1 == k2
  {
    var line := Assignment(k1, v);
    var p := k2 + "=";
    if Text.HasPrefix(line, p) {
      assert line[..|p|] == p;
      assert forall m :: 0 <= m < |p| ==> line[m] == p[m];
      assert |k1| == |k2| by {
        assert line[|k1|] == '=' && p[|k2|] == '=';
        assert forall m :: 0 <= m < |k1| ==> line[m] == k1[m];
        assert forall m :: 0 <= m < |k2| ==> p[m] == k2[m];
      }
      assert line[..|k1|] == k1;
      assert p[..|k2|] == k2;
    }
    if k1 == k2 {
      assert line[..|p|] == p;
    }
  }

  // ---------------------------------------------------------------------------
  // Key names for an environment and plan type (setup/setup.go:239-260)
  // ---------------------------------------------------------------------------

  /**
   * `getAppIDAndKeyKeys`: production or staging, then starter or any other
   * plan (the enterprise keys); any other environment gives two empty names.
   */
  function GetAppIDAndKeyKeys(env: string, planType: string): (keys: (string, string))
    ensures env == Relay.EnvProd && planType == Relay.PlanTypeStarter
            ==> keys == (ProductionStarterAppID, ProductionStarterKey)
    ensures env == Relay.EnvProd && planType != Relay.PlanTypeStarter
            ==> keys == (ProductionEnterpriseAppID, ProductionEnterpriseKey)
    ensures env == Relay.EnvStaging && planType == Relay.PlanTypeStarter
            ==> keys == (StagingStarterAppID, StagingStarterKey)
    ensures env == Relay.EnvStaging && planType != Relay.PlanTypeStarter
            ==> keys == (StagingEnterpriseAppID, StagingEnterpriseKey)
    ensures env != Relay.EnvProd && env != Relay.EnvStaging ==> keys == ("", "")
  {
    if env == Relay.EnvProd then
      if planType == Relay.PlanTypeStarter then (ProductionStarterAppID, ProductionStarterKey)
      else (ProductionEnterpriseAppID, ProductionEnterpriseKey)
    else if env == Relay.EnvStaging then
      if planType == Relay.PlanTypeStarter then (StagingStarterAppID, StagingStarterKey)
      else (StagingEnterpriseAppID, StagingEnterpriseKey)
    else ("", "")
  }

  // ---------------------------------------------------------------------------
  // Replacing a dummy app id in the file (setup/setup.go:178-218)
  // ---------------------------------------------------------------------------

  /** What `updateEnvFile` leaves in the file, and the app id and key it returns. */
  datatype FileUpdate = FileUpdate(contents: string, appID: string, key: string)

  /**
   * `updateEnvFile` on the file's text: the two answers are trimmed, and each
   * non-blank one is written under the key name the table gives for the
   * environment and plan type.
   */
  function EnvFileUpdate(contents: string, env: string, planType: string, idLine: string, keyLine: string): FileUpdate {
    var (idKey, keyKey) := GetAppIDAndKeyKeys(env, planType);
    var id := Text.TrimSpace(idLine);
    var key := Text.TrimSpace(keyLine);
    var withID := if id != "" then EnvUpdate(contents, idKey, id) else contents;
    var withKey := if key != "" then EnvUpdate(withID, keyKey, key) else withID;
    FileUpdate(withKey, id, key)
  }

  /**
   * For production or staging, on a file that is empty or ends in a newline:
   * the updated file still ends in a newline, and each non-blank answer is
   * a `key=value` line of it under the table's key name.
   */
  lemma EnvFileUpdateWrites(contents: string, env: string, planType: string, idLine: string, keyLine: string)
    requires env == Relay.EnvProd || env == Relay.EnvStaging
    requires Terminated(contents)
    requires '\n' !in Text.TrimSpace(idLine) && '\n' !in Text.TrimSpace(keyLine)
    ensures var u := EnvFileUpdate(contents, env, planType, idLine, keyLine);
            var (idKey, keyKey) := GetAppIDAndKeyKeys(env, planType);
      && Terminated(u.contents)
      && (u.appID != "" ==> Assignment(idKey, u.appID) in Text.Split(u.contents, '\n'))
      && (u.key != "" ==> Assignment(keyKey, u.key) in Text.Split(u.contents, '\n'))
  {
    var (idKey, keyKey) := GetAppIDAndKeyKeys(env, planType);
    TableKeysPlain(env, planType);
    TwoUpdatesWrite(contents, idKey, Text.TrimSpace(idLine), keyKey, Text.TrimSpace(keyLine));
  }

  /** The key names of production and staging are two different names with no newline and no `=`. */
  lemma TableKeysPlain(env: string, planType: string)
    requires env == Relay.EnvProd || env == Relay.EnvStaging
    ensures var (idKey, keyKey) := GetAppIDAndKeyKeys(env, planType);
      '\n' !in idKey && '\n' !in keyKey && '=' !in idKey && '=' !in keyKey && idKey != keyKey
  {
  }

  /** Writing an id and then a key, each only when non-blank, leaves both as lines of a file still ending in a newline. */
  lemma TwoUpdatesWrite(contents: string, idKey: string, id: string, keyKey: string, key: string)
    requires Terminated(contents)
    requires '\n' !in idKey && '\n' !in keyKey && '=' !in idKey && '=' !in keyKey && idKey != keyKey
    requires '\n' !in id && '\n' !in key
    ensures var withID := if id != "" then EnvUpdate(contents, idKey, id) else contents;
            var withKey := if key != "" then EnvUpdate(withID, keyKey, key) else withID;
      && Terminated(withKey)
      && (id != "" ==> Assignment(idKey, id) in Text.Split(withKey, '\n'))
      && (key != "" ==> Assignment(keyKey, key) in Text.Split(withKey, '\n'))
  {
    var withID := if id != "" then EnvUpdate(contents, idKey, id) else contents;
    if id != "" {
      UpdateIdempotent(contents, idKey, id);
      UpdateKeepsTerminated(contents, idKey, id);
    }
    if key != "" {
      UpdateIdempotent(withID, keyKey, key);
      UpdateKeepsTerminated(withID, keyKey, key);
      if id != "" {
        AssignsKey(idKey, id, keyKey);
        UpdateKeepsOtherLine(withID, keyKey, key, Assignment(idKey, id));
      }
    }
  }

  // ---------------------------------------------------------------------------
  // The first-run prompt loop (setup/setup.go:77-128)
  // ---------------------------------------------------------------------------

  /** One prompt: the key it writes, the value written for a blank answer, and whether it is required. */
  datatype Prompt = Prompt(key: string, dummy: string, required: bool)

  /** The prompts, in order: for each environment and plan, the app id (required), then the secret key. */
  const EnvVarPrompts: seq<Prompt> := [
    Prompt(ProductionStarterAppID, "dummy_starter_app_id", true),
    Prompt(ProductionStarterKey, "", false),
    Prompt(ProductionEnterpriseAppID, "dummy_enterprise_app_id", true),
    Prompt(ProductionEnterpriseKey, "", false),
    Prompt(StagingStarterAppID, "dummy_staging_starter_app_id", true),
    Prompt(StagingStarterKey, "", false),
    Prompt(StagingEnterpriseAppID, "dummy_staging_enterprise_app_id", true),
    Prompt(StagingEnterpriseKey, "", false)
  ]

  /** One `key=value` line written to the new file. */
  datatype Entry = Entry(key: string, value: string)

  /** The text of the written lines, each ending in a newline. */
  function EnvText(entries: seq<Entry>): (text: string)
    ensures Terminated(text)
    ensures entries == [] <==> text == []
  {
    if entries == [] then ""
    else
      var last := entries[|entries| - 1];
      EnvText(entries[..|entries| - 1]) + Assignment(last.key, last.value) + "\n"
  }

  /** The next line; at the end of input `ReadString` gives "". */
  function Head(input: seq<string>): string {
    if input == [] then "" else input[0]
  }

  function Tail(input: seq<string>): seq<string> {
    if input == [] then [] else input[1..]
  }

  /** The answers as the loop uses them: each line typed, with surrounding white space removed. */
  function Answers(input: seq<string>): (answers: seq<string>)
    ensures |answers| == |input|
  {
    if input == [] then [] else [Text.TrimSpace(input[0])] + Answers(input[1..])
  }

  /** Reading one line and trimming it is taking the next answer. */
  lemma AnswersStep(input: seq<string>)
    ensures Head(Answers(input)) == Text.TrimSpace(Head(input))
    ensures Tail(Answers(input)) == Answers(Tail(input))
  {
    if input != [] {
      assert Answers(input)[1..] == Answers(input[1..]);
    }
  }

  /** What one pass of the loop writes, the answers left, and the new skip flag. */
  datatype Step = Step(entries: seq<Entry>, rest: seq<string>, skip: bool)

  /**
   * One pass for prompt `p`: a key prompt after a blank app id is skipped
   * without reading and clears the flag; a blank required answer writes the
   * dummy and sets the flag when the next prompt is optional; a blank optional
   * answer writes nothing; any other answer is written as typed, trimmed.
   */
  function PromptStep(p: Prompt, nextOptional: bool, answers: seq<string>, skip: bool): Step
  {
    if skip && !p.required then Step([], answers, false)
    else
      var value := Head(answers);
      if value != "" then Step([Entry(p.key, value)], Tail(answers), skip)
      else if p.required then Step([Entry(p.key, p.dummy)], Tail(answers), skip || nextOptional)
      else Step([], Tail(answers), skip)
  }

  /** Whether the prompt after the first is an optional one. */
  function NextOptional(prompts: seq<Prompt>): bool {
    |prompts| > 1 && !prompts[1].required
  }

  /** The entries the loop writes for `prompts`, taking trimmed `answers` in turn, with skip flag `skip`. */
  function PromptRun(prompts: seq<Prompt>, answers: seq<string>, skip: bool): seq<Entry>
    decreases |prompts|
  {
    if prompts == [] then []
    else
      var st := PromptStep(prompts[0], NextOptional(prompts), answers, skip);
      st.entries + PromptRun(prompts[1..], st.rest, st.skip)
  }

  /** The prompt loop of `createEnvFile`: the text written to the new `.env` file. */
  method CreateEnvFile(prompts: seq<Prompt>, input: seq<string>) returns (contents: string)
    ensures contents == EnvText(PromptRun(prompts, Answers(input), false))
  {
    var skipNextKeyPrompt := false;
    var reader := input;
    contents := "";
    ghost var answers := Answers(input);
    ghost var goal := PromptRun(prompts, answers, false);
    ghost var entries: seq<Entry> := [];
    assert prompts[0..] == prompts;
    for i := 0 to |prompts|
      invariant answers == Answers(reader)
      invariant contents == EnvText(entries)
      invariant entries + PromptRun(prompts[i..], answers, skipNextKeyPrompt) == goal
    {
      ghost var st := PromptStep(prompts[i], NextOptional(prompts[i..]), answers, skipNextKeyPrompt);
      StepOfRun(prompts, i, answers, skipNextKeyPrompt);
      Regroup(entries, st.entries, PromptRun(prompts[i + 1..], st.rest, st.skip), goal);
      var prompt := prompts[i];
      if skipNextKeyPrompt && !prompt.required {
        skipNextKeyPrompt := false;
        assert st == Step([], answers, skipNextKeyPrompt);
        continue;
      }
      AnswersStep(reader);
      var value := Text.TrimSpace(Head(reader));
      reader := Tail(reader);
      answers := Tail(answers);
      if value == "" {
        if prompt.required {
          value := prompt.dummy;
          if i < |prompts| - 1 && !prompts[i + 1].required {
            skipNextKeyPrompt := true;
          }
        } else {
          assert st == Step([], answers, skipNextKeyPrompt);
          continue;
        }
      }
      assert st == Step([Entry(prompt.key, value)], answers, skipNextKeyPrompt);
      EnvTextSnoc(entries, Entry(prompt.key, value));
      contents := contents + Assignment(prompt.key, value) + "\n";
      entries := entries + [Entry(prompt.key, value)];
    }
    assert prompts[|prompts|..] == [];
    assert entries + [] == entries;
  }

  /** Moving one step's entries from the pending run to the written ones. */
  lemma Regroup(done: seq<Entry>, step: seq<Entry>, rest: seq<Entry>, goal: seq<Entry>)
    requires done + (step + rest) == goal
    ensures (done + step) + rest == goal
    ensures step == [] ==> done + rest == goal
  {
    assert done + (step + rest) == (done + step) + rest;
    if step == [] {
      assert done + step == done;
    }
  }

  /** The run from prompt `i` is one step followed by the run from prompt `i + 1`. */
  lemma StepOfRun(prompts: seq<Prompt>, i: nat, answers: seq<string>, skip: bool)
    requires i < |prompts|
    ensures NextOptional(prompts[i..]) == (i < |prompts| - 1 && !prompts[i + 1].required)
    ensures var st := PromptStep(prompts[i], NextOptional(prompts[i..]), answers, skip);
      PromptRun(prompts[i..], answers, skip) == st.entries + PromptRun(prompts[i + 1..], st.rest, st.skip)
  {
    assert prompts[i..][1..] == prompts[i + 1..];
  }

  /** Writing one more line appends its text. */
  lemma EnvTextSnoc(entries: seq<Entry>, e: Entry)
    ensures EnvText(entries + [e]) == EnvText(entries) + Assignment(e.key, e.value) + "\n"
  {
    assert (entries + [e])[..|entries|] == entries;
  }

  /** An app id prompt and the secret key prompt that follows it. */
  datatype PromptPair = PromptPair(idKey: string, dummy: string, keyKey: string)

  function Prompts(ps: seq<PromptPair>): (prompts: seq<Prompt>)
    ensures |prompts| == 2 * |ps|
  {
    if ps == [] then []
    else [Prompt(ps[0].idKey, ps[0].dummy, true), Prompt(ps[0].keyKey, "", false)] + Prompts(ps[1..])
  }

  const PromptPairs: seq<PromptPair> := [
    PromptPair(ProductionStarterAppID, "dummy_starter_app_id", ProductionStarterKey),
    PromptPair(ProductionEnterpriseAppID, "dummy_enterprise_app_id", ProductionEnterpriseKey),
    PromptPair(StagingStarterAppID, "dummy_staging_starter_app_id", StagingStarterKey),
    PromptPair(StagingEnterpriseAppID, "dummy_staging_enterprise_app_id", StagingEnterpriseKey)
  ]

  lemma PromptsArePairs()
    ensures Prompts(PromptPairs) == EnvVarPrompts
  {
    assert PromptPairs[4..] == [];
    assert Prompts(PromptPairs[3..]) == EnvVarPrompts[6..] by {
      assert PromptPairs[3..][1..] == PromptPairs[4..];
    }
    assert Prompts(PromptPairs[2..]) == EnvVarPrompts[4..] by {
      assert PromptPairs[2..][1..] == PromptPairs[3..];
    }
    assert Prompts(PromptPairs[1..]) == EnvVarPrompts[2..] by {
      assert PromptPairs[1..][1..] == PromptPairs[2..];
    }
  }

  /**
   * The loop read pair by pair: a blank app id writes the dummy and the key
   * question is never asked; otherwise the id is written, then the key if
   * one was typed.
   */
  function PairRun(ps: seq<PromptPair>, answers: seq<string>): seq<Entry> {
    if ps == [] then []
    else
      var id := Head(answers);
      if id == "" then [Entry(ps[0].idKey, ps[0].dummy)] + PairRun(ps[1..], Tail(answers))
      else
        var key := Head(Tail(answers));
        [Entry(ps[0].idKey, id)] + (if key == "" then [] else [Entry(ps[0].keyKey, key)])
          + PairRun(ps[1..], Tail(Tail(answers)))
  }

  /** On alternating app id and key prompts, the flag-driven loop is the pair-by-pair reading. */
  lemma {:induction false} PromptRunIsPairRun(ps: seq<PromptPair>, answers: seq<string>)
    ensures PromptRun(Prompts(ps), answers, false) == PairRun(ps, answers)
  {
    if ps != [] {
      var rest := Prompts(ps[1..]);
      var prompts := Prompts(ps);
      var idPrompt := Prompt(ps[0].idKey, ps[0].dummy, true);
      var keyPrompt := Prompt(ps[0].keyKey, "", false);
      assert prompts == [idPrompt, keyPrompt] + rest;
      assert prompts[1..] == [keyPrompt] + rest;
      assert prompts[1..][1..] == rest;
      var st := PromptStep(idPrompt, true, answers, false);
      assert PromptRun(prompts, answers, false) == st.entries + PromptRun(prompts[1..], st.rest, st.skip);
      var st2 := PromptStep(keyPrompt, NextOptional(prompts[1..]), st.rest, st.skip);
      assert PromptRun(prompts[1..], st.rest, st.skip) == st2.entries + PromptRun(rest, st2.rest, st2.skip);
      if Head(answers) == "" {
        PromptRunIsPairRun(ps[1..], Tail(answers));
      } else {
        PromptRunIsPairRun(ps[1..], Tail(Tail(answers)));
      }
    }
  }

  /** Each pair writes one or two entries. */
  lemma {:induction false} PairRunLength(ps: seq<PromptPair>, answers: seq<string>)
    ensures |ps| <= |PairRun(ps, answers)| <= 2 * |ps|
  {
    if ps != [] {
      PairRunLength(ps[1..], Tail(answers));
      PairRunLength(ps[1..], Tail(Tail(answers)));
    }
  }

  /** The number of entries that assign `key`. */
  function Count(entries: seq<Entry>, key: string): nat {
    if entries == [] then 0
    else (if entries[0].key == key then 1 else 0) + Count(entries[1..], key)
  }

  lemma {:induction false} CountAppend(a: seq<Entry>, b: seq<Entry>, key: string)
    ensures Count(a + b, key) == Count(a, key) + Count(b, key)
  {
    if a != [] {
      assert (a + b)[1..] == a[1..] + b;
      CountAppend(a[1..], b, key);
    } else {
      assert a + b == b;
    }
  }

  /** The key names of a list of pairs are all different. */
  predicate DistinctKeys(ps: seq<PromptPair>) {
    && (forall i :: 0 <= i < |ps| ==> ps[i].idKey != ps[i].keyKey)
    && (forall i, j :: 0 <= i < j < |ps| ==>
          && ps[i].idKey != ps[j].idKey && ps[i].keyKey != ps[j].keyKey
          && ps[i].idKey != ps[j].keyKey && ps[i].keyKey != ps[j].idKey)
  }

  /** The entries one pair writes: its app id, then perhaps its secret key. */
  predicate Leads(first: seq<Entry>, p: PromptPair) {
    1 <= |first| <= 2 && first[0].key == p.idKey && (|first| == 2 ==> first[1].key == p.keyKey)
  }

  /** The entries written for the first pair (its app id, then perhaps its key), and the answers left after it. */
  lemma PairRunFirst(ps: seq<PromptPair>, answers: seq<string>) returns (first: seq<Entry>, rest: seq<string>)
    requires ps != []
    ensures PairRun(ps, answers) == first + PairRun(ps[1..], rest)
    ensures Leads(first, ps[0])
  {
    var id := Head(answers);
    var keyAnswer := Head(Tail(answers));
    if id == "" {
      first, rest := [Entry(ps[0].idKey, ps[0].dummy)], Tail(answers);
    } else if keyAnswer == "" {
      first, rest := [Entry(ps[0].idKey, id)], Tail(Tail(answers));
      assert PairRun(ps, answers) == first + [] + PairRun(ps[1..], rest);
    } else {
      first, rest := [Entry(ps[0].idKey, id), Entry(ps[0].keyKey, keyAnswer)], Tail(Tail(answers));
    }
  }

  /** The count over one or two entries. */
  lemma CountShort(first: seq<Entry>, key: string)
    requires 1 <= |first| <= 2
    ensures Count(first, key) == (if first[0].key == key then 1 else 0)
                                 + (if |first| == 2 && first[1].key == key then 1 else 0)
  {
    if |first| == 2 {
      assert first[1..][1..] == [];
    }
  }

  /** A key that no pair uses is never written. */
  lemma {:induction false} NoEntriesForOtherKey(ps: seq<PromptPair>, answers: seq<string>, key: string)
    requires forall i :: 0 <= i < |ps| ==> ps[i].idKey != key && ps[i].keyKey != key
    ensures Count(PairRun(ps, answers), key) == 0
  {
    if ps != [] {
      var first, rest := PairRunFirst(ps, answers);
      CountShort(first, key);
      NoEntriesForOtherKey(ps[1..], rest, key);
      CountAppend(first, PairRun(ps[1..], rest), key);
    }
  }

  /** The pairs after the first keep distinct keys. */
  lemma DistinctKeysRest(ps: seq<PromptPair>)
    requires DistinctKeys(ps) && ps != []
    ensures DistinctKeys(ps[1..])
  {
    forall i, j | 0 <= i < j < |ps[1..]|
      ensures ps[1..][i].idKey != ps[1..][j].idKey && ps[1..][i].keyKey != ps[1..][j].keyKey
      ensures ps[1..][i].idKey != ps[1..][j].keyKey && ps[1..][i].keyKey != ps[1..][j].idKey
    {
      assert ps[1..][i] == ps[i + 1] && ps[1..][j] == ps[j + 1];
    }
  }

  /** No later pair shares a key with the first pair. */
  lemma FirstKeysUnused(ps: seq<PromptPair>)
    requires DistinctKeys(ps) && ps != []
    ensures forall i :: 0 <= i < |ps[1..]| ==> ps[1..][i].idKey != ps[0].idKey && ps[1..][i].keyKey != ps[0].idKey
    ensures forall i :: 0 <= i < |ps[1..]| ==> ps[1..][i].idKey != ps[0].keyKey && ps[1..][i].keyKey != ps[0].keyKey
  {
    forall i | 0 <= i < |ps[1..]|
      ensures ps[1..][i].idKey != ps[0].idKey && ps[1..][i].keyKey != ps[0].idKey
      ensures ps[1..][i].idKey != ps[0].keyKey && ps[1..][i].keyKey != ps[0].keyKey
    {
      assert ps[1..][i] == ps[i + 1];
    }
  }

  /** Every app id prompt writes exactly one entry for its key, and every secret key prompt at most one. */
  lemma {:induction false} OneEntryPerAppID(ps: seq<PromptPair>, answers: seq<string>, k: nat)
    requires DistinctKeys(ps) && k < |ps|
    ensures Count(PairRun(ps, answers), ps[k].idKey) == 1
    ensures Count(PairRun(ps, answers), ps[k].keyKey) <= 1
  {
    var first, rest := PairRunFirst(ps, answers);
    if k == 0 {
      FirstPairCounts(ps, first, rest);
    } else {
      DistinctKeysRest(ps);
      assert ps[1..][k - 1] == ps[k];
      OneEntryPerAppID(ps[1..], rest, k - 1);
      LaterPairCounts(ps, first, PairRun(ps[1..], rest), k);
    }
  }

  /** The first pair's keys: written once (the app id) and at most once (the secret key), and never later. */
  lemma FirstPairCounts(ps: seq<PromptPair>, first: seq<Entry>, rest: seq<string>)
    requires DistinctKeys(ps) && ps != []
    requires Leads(first, ps[0])
    ensures Count(first + PairRun(ps[1..], rest), ps[0].idKey) == 1
    ensures Count(first + PairRun(ps[1..], rest), ps[0].keyKey) <= 1
  {
    var later := PairRun(ps[1..], rest);
    FirstKeysUnused(ps);
    NoEntriesForOtherKey(ps[1..], rest, ps[0].idKey);
    NoEntriesForOtherKey(ps[1..], rest, ps[0].keyKey);
    CountFirstThen(first, later, ps[0].idKey);
    CountFirstThen(first, later, ps[0].keyKey);
  }

  /** A later pair's keys are not the first pair's, so the first entries add nothing to their counts. */
  lemma LaterPairCounts(ps: seq<PromptPair>, first: seq<Entry>, later: seq<Entry>, k: nat)
    requires DistinctKeys(ps) && 0 < k < |ps|
    requires Leads(first, ps[0])
    requires Count(later, ps[k].idKey) == 1 && Count(later, ps[k].keyKey) <= 1
    ensures Count(first + later, ps[k].idKey) == 1
    ensures Count(first + later, ps[k].keyKey) <= 1
  {
    PairKeysDiffer(ps, 0, k);
    CountFirstThen(first, later, ps[k].idKey);
    CountFirstThen(first, later, ps[k].keyKey);
  }

  /** The count over one or two leading entries and the rest. */
  lemma CountFirstThen(first: seq<Entry>, later: seq<Entry>, key: string)
    requires 1 <= |first| <= 2
    ensures Count(first + later, key) == (if first[0].key == key then 1 else 0)
                                         + (if |first| == 2 && first[1].key == key then 1 else 0)
                                         + Count(later, key)
  {
    CountShort(first, key);
    CountAppend(first, later, key);
  }

  lemma PairKeysDiffer(ps: seq<PromptPair>, i: nat, j: nat)
    requires DistinctKeys(ps) && i < j < |ps|
    ensures ps[i].idKey != ps[j].idKey && ps[i].keyKey != ps[j].keyKey
    ensures ps[i].idKey != ps[j].keyKey && ps[i].keyKey != ps[j].idKey
  {
  }

  /**
   * The first-run setup writes between four and eight lines, exactly one per
   * app id key and at most one per secret key.
   */
  lemma CreateEnvFileEntries(answers: seq<string>)
    ensures 4 <= |PromptRun(EnvVarPrompts, answers, false)| <= 8
    ensures forall k :: 0 <= k < 4 ==> Count(PromptRun(EnvVarPrompts, answers, false), PromptPairs[k].idKey) == 1
    ensures forall k :: 0 <= k < 4 ==> Count(PromptRun(EnvVarPrompts, answers, false), PromptPairs[k].keyKey) <= 1
  {
    PromptsArePairs();
    PromptRunIsPairRun(PromptPairs, answers);
    PairRunLength(PromptPairs, answers);
    assert DistinctKeys(PromptPairs);
    forall k | 0 <= k < 4
      ensures Count(PromptRun(EnvVarPrompts, answers, false), PromptPairs[k].idKey) == 1
      ensures Count(PromptRun(EnvVarPrompts, answers, false), PromptPairs[k].keyKey) <= 1
    {
      OneEntryPerAppID(PromptPairs, answers, k);
    }
  }

  /** A blank first answer writes the production starter dummy and skips the production starter key question. */
  lemma BlankAppIDWritesDummy(input: seq<string>)
    requires Text.TrimSpace(Head(input)) == ""
    ensures PromptRun(EnvVarPrompts, Answers(input), false)
            == [Entry(ProductionStarterAppID, "dummy_starter_app_id")] + PromptRun(EnvVarPrompts[2..], Answers(Tail(input)), false)
  {
    AnswersStep(input);
    BlankRequiredSkipsNext(EnvVarPrompts, Answers(input));
  }

  /** A blank answer to a required prompt followed by an optional one writes the dummy and skips the optional one. */
  lemma BlankRequiredSkipsNext(prompts: seq<Prompt>, answers: seq<string>)
    requires |prompts| >= 2 && prompts[0].required && !prompts[1].required
    requires Head(answers) == ""
    ensures PromptRun(prompts, answers, false)
            == [Entry(prompts[0].key, prompts[0].dummy)] + PromptRun(prompts[2..], Tail(answers), false)
  {
    assert prompts[1..][1..] == prompts[2..];
  }

  /** The key names the table gives are the ones the setup prompts write, pair by pair. */
  lemma KeysMatchPrompts()
    ensures GetAppIDAndKeyKeys(Relay.EnvProd, Relay.PlanTypeStarter) == (PromptPairs[0].idKey, PromptPairs[0].keyKey)
    ensures GetAppIDAndKeyKeys(Relay.EnvProd, Relay.PlanTypeEnterprise) == (PromptPairs[1].idKey, PromptPairs[1].keyKey)
    ensures GetAppIDAndKeyKeys(Relay.EnvStaging, Relay.PlanTypeStarter) == (PromptPairs[2].idKey, PromptPairs[2].keyKey)
    ensures GetAppIDAndKeyKeys(Relay.EnvStaging, Relay.PlanTypeEnterprise) == (PromptPairs[3].idKey, PromptPairs[3].keyKey)
  {
  }
}
