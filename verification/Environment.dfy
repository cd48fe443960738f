/** The environment of the workbench process: internal/agent/supervisor.go, mergeEnvironment. */
module Environment {
  import opened Dotenv
  import opened Text

  /** What the first occurrence of each variable says; items without an equals sign say nothing. */
  function FirstValues(items: seq<string>): map<string, string> {
    if items == [] then map[]
    else
      var last := Cut(items[|items| - 1]);
      var first := FirstValues(items[..|items| - 1]);
      if last.found && last.before !in first then first[last.before := last.after] else first
  }

  /** Every item names a variable, and no two name the same. */
  ghost predicate Tidy(items: seq<string>) {
    && (forall i :: 0 <= i < |items| ==> Cut(items[i]).found)
    && (forall i, j :: 0 <= i < j < |items| ==> Cut(items[i]).before != Cut(items[j]).before)
  }

  predicate Nameable(values: map<string, string>) {
    forall key :: key in values ==> '=' !in key
  }

  /** Each variable once: with its value in values, or else as it first occurs in items. */
  ghost predicate Merged(items: seq<string>, values: map<string, string>, result: seq<string>) {
    Tidy(result) && FirstValues(result) == FirstValues(items) + values
  }

  /** The value of each variable when values are visited in any order. */
  method MergeEnvironment(base: seq<string>, values: map<string, string>, additions: seq<string>) returns (result: seq<string>)
    ensures Merged(base + additions, values, result) <==> Nameable(values)
  {
    hide Cut, HasPrefix;
    var items := base + additions;
    result := [];
    var seen: set<string> := {};
    for i := 0 to |items|
      invariant Tidy(result) && seen == FirstValues(result).Keys
      invariant FirstValues(result) == FirstValues(items[..i])
    {
      assert items[..i + 1][..i] == items[..i];
      var parts := Cut(items[i]);
      if !parts.found || parts.before in seen {
        continue;
      }
      seen := seen + {parts.before};
      AppendIsTidy(result, items[i]);
      result := result + [items[i]];
    }
    assert items[..|items|] == items;
    ghost var first := FirstValues(items);
    var remaining := values.Keys;
    ghost var done: map<string, string> := map[];
    while remaining != {}
      invariant remaining <= values.Keys
      invariant done == values - remaining
      invariant Nameable(values) ==> Tidy(result) && FirstValues(result) == first + done && seen == FirstValues(result).Keys
      decreases remaining
    {
      var key :| key in remaining;
      remaining := remaining - {key};
      ghost var before := done;
      done := done[key := values[key]];
      assert done == values - remaining;
      assert first + done == (first + before)[key := values[key]];
      if key in seen {
        result := Overwrite(result, key, values[key]);
        continue;
      }
      seen := seen + {key};
      var item := key + "=" + values[key];
      if Nameable(values) {
        CutJoined(key, values[key]);
        AppendIsTidy(result, item);
      }
      result := result + [item];
    }
    assert done == values;
    if !Nameable(values) {
      NeverMerged(items, values, result);
    }
  }

  /** Gives every item with the key's prefix the new value. */
  method Overwrite(items: seq<string>, key: string, value: string) returns (result: seq<string>)
    ensures Tidy(items) && '=' !in key && key in FirstValues(items) ==>
              Tidy(result) && FirstValues(result) == FirstValues(items)[key := value]
  {
    hide Cut, HasPrefix;
    result := items;
    for i := 0 to |items|
      invariant |result| == |items|
      invariant forall j :: i <= j < |items| ==> result[j] == items[j]
      invariant forall j :: 0 <= j < i ==> result[j] == if HasPrefix(items[j], key + "=") then key + "=" + value else items[j]
    {
      if HasPrefix(items[i], key + "=") {
        result := result[i := key + "=" + value];
      }
    }
    if Tidy(items) && '=' !in key && key in FirstValues(items) {
      OverwrittenOnce(items, key, value, result);
    }
  }

  lemma {:induction false} CutJoined(key: string, value: string)
    requires '=' !in key
    ensures Cut(key + "=" + value) == Parts(key, value, true)
  {
    var s := key + "=" + value;
    assert s[|key|] == '=';
    CutIsFirst(s, key, value);
  }

  lemma {:induction false} PrefixIsKey(item: string, key: string)
    requires Cut(item).found && '=' !in key
    ensures HasPrefix(item, key + "=") <==> Cut(item).before == key
  {
    hide Cut;
    var start := key + "=";
    if HasPrefix(item, start) {
      assert item == start + item[|start|..];
      CutIsFirst(item, key, item[|start|..]);
    }
    if Cut(item).before == key {
      assert item == start + Cut(item).after;
    }
  }

  lemma {:induction false} AppendIsTidy(items: seq<string>, item: string)
    requires Tidy(items) && Cut(item).found && Cut(item).before !in FirstValues(items)
    ensures Tidy(items + [item])
    ensures FirstValues(items + [item]) == FirstValues(items)[Cut(item).before := Cut(item).after]
  {
    hide Cut;
    var all := items + [item];
    assert all[..|items|] == items;
    forall i | 0 <= i < |items| ensures Cut(items[i]).before != Cut(item).before {
      TidyValues(items, i);
    }
  }

  lemma {:induction false} TidyValues(items: seq<string>, i: nat)
    requires Tidy(items) && i < |items|
    ensures Cut(items[i]).before in FirstValues(items) && FirstValues(items)[Cut(items[i]).before] == Cut(items[i]).after
  {
    hide Cut;
    var n := |items| - 1;
    if i < n {
      TidyValues(items[..n], i);
    } else {
      if Cut(items[n]).before in FirstValues(items[..n]) {
        var j := Occurrence(items[..n], Cut(items[n]).before);
        assert false;
      }
    }
  }

  lemma {:induction false} Occurrence(items: seq<string>, key: string) returns (i: nat)
    requires key in FirstValues(items)
    ensures i < |items| && Cut(items[i]).found && Cut(items[i]).before == key
  {
    hide Cut;
    var n := |items| - 1;
    if key in FirstValues(items[..n]) {
      i := Occurrence(items[..n], key);
    } else {
      i := n;
    }
  }

  /** An item that is the first of its variable decides it. */
  lemma {:induction false} FirstDecides(items: seq<string>, i: nat)
    requires i < |items| && Cut(items[i]).found
    requires forall j :: 0 <= j < i && Cut(items[j]).found ==> Cut(items[j]).before != Cut(items[i]).before
    ensures Cut(items[i]).before in FirstValues(items) && FirstValues(items)[Cut(items[i]).before] == Cut(items[i]).after
  {
    hide Cut;
    var n := |items| - 1;
    if i < n {
      FirstDecides(items[..n], i);
    } else if Cut(items[n]).before in FirstValues(items[..n]) {
      var j := Occurrence(items[..n], Cut(items[n]).before);
    }
  }

  lemma {:induction false} OverwrittenOnce(items: seq<string>, key: string, value: string, result: seq<string>)
    requires Tidy(items) && '=' !in key && key in FirstValues(items) && |result| == |items|
    requires forall i :: 0 <= i < |items| ==> result[i] == if HasPrefix(items[i], key + "=") then key + "=" + value else items[i]
    ensures Tidy(result) && FirstValues(result) == FirstValues(items)[key := value]
  {
    hide Cut, HasPrefix, FirstValues;
    CutJoined(key, value);
    forall i | 0 <= i < |items|
      ensures Cut(result[i]) == Parts(Cut(items[i]).before, if Cut(items[i]).before == key then value else Cut(items[i]).after, true)
    {
      PrefixIsKey(items[i], key);
    }
    assert Tidy(result);
    var expected := FirstValues(items)[key := value];
    forall k | k in FirstValues(result) ensures k in expected && FirstValues(result)[k] == expected[k] {
      var i := Occurrence(result, k);
      TidyValues(result, i);
      TidyValues(items, i);
    }
    forall k | k in expected ensures k in FirstValues(result) {
      var i := Occurrence(items, k);
      TidyValues(result, i);
    }
  }

  /** A key with an equals sign can never be a variable's name. */
  lemma NeverMerged(items: seq<string>, values: map<string, string>, result: seq<string>)
    requires !Nameable(values)
    ensures !Merged(items, values, result)
  {
    hide Cut;
    var key :| key in values && '=' in key;
    NamesHaveNoEquals(result, key);
    assert key in FirstValues(items) + values;
  }

  lemma {:induction false} NamesHaveNoEquals(items: seq<string>, key: string)
    requires '=' in key
    ensures key !in FirstValues(items)
  {
    if items != [] {
      NamesHaveNoEquals(items[..|items| - 1], key);
    }
  }

  // ---- the launched process -------------------------------------------------------------------

  datatype Launch = Launched(environment: seq<string>) | BadDotenv(error: Parsed) | BadBasePath

  const BASE_PATH := "WORKBENCH_BASE_PATH"
  const BYOK_MODELS := "VSCODE_AGENT_HOST_BYOK_MODELS_ENABLED"

  function Additions(basePath: string): seq<string> {
    [BASE_PATH + "=" + basePath, BYOK_MODELS + "=" + "true"]
  }

  function WithAccount(values: map<string, string>, home: string, user: string): map<string, string> {
    values["HOME" := home]["USER" := user]["LOGNAME" := user]
  }

  function BasePath(configured: string): string {
    if configured == "" then "/" else configured
  }

  /** What a launch hands to the process, by the contents of its dotenv file. */
  ghost predicate LaunchedAs(environ: seq<string>, dotenv: string, home: string, user: string, configured: string, r: Launch) {
    exists parsed :: Outcome(Meanings(dotenv), parsed) &&
      if !parsed.Values? then r == BadDotenv(parsed)
      else if BasePath(configured)[0] != '/' then r.BadBasePath?
      else r.Launched? && Merged(environ + Additions(BasePath(configured)), WithAccount(parsed.values, home, user), r.environment)
  }

  method CommandEnvironment(environ: seq<string>, dotenv: string, home: string, user: string, configured: string)
    returns (r: Launch)
    ensures LaunchedAs(environ, dotenv, home, user, configured, r)
  {
    hide Outcome, Merged;
    var parsed := ParseDotenv(dotenv);
    if !parsed.Values? {
      return BadDotenv(parsed);
    }
    if BasePath(configured)[0] != '/' {
      return BadBasePath;
    }
    var values := WithAccount(parsed.values, home, user);
    ParsedKeysAreValid(dotenv, parsed.values);
    var merged := MergeEnvironment(environ, values, Additions(BasePath(configured)));
    return Launched(merged);
  }

  /** What a variable is in the process: the account decides three of them, then the file's last assignment decides, then
      the first occurrence in the inherited environment, and last the agent's own additions. */
  lemma {:induction false} VariablesOfTheProcess(environ: seq<string>, dotenv: string, home: string, user: string, configured: string,
                              environment: seq<string>, key: string)
    requires LaunchedAs(environ, dotenv, home, user, configured, Launched(environment))
    ensures Tidy(environment)
    ensures var env, lines := FirstValues(environment), Meanings(dotenv);
            var inherited := FirstValues(environ + Additions(BasePath(configured)));
            if key == "HOME" then key in env && env[key] == home
            else if key == "USER" || key == "LOGNAME" then key in env && env[key] == user
            else
              && (forall i: nat :: LastAssignment(lines, i) && lines[i].key == key ==> key in env && env[key] == lines[i].value)
              && ((forall i: nat :: LastAssignment(lines, i) ==> lines[i].key != key) ==>
                    (key in env <==> key in inherited) && (key in env ==> env[key] == inherited[key]))
  {
    hide Cut, FirstValues, Meanings, Additions, BasePath, Tidy;
    var lines := Meanings(dotenv);
    var values :| Outcome(lines, Values(values))
               && Merged(environ + Additions(BasePath(configured)), WithAccount(values, home, user), environment);
    if key in values {
      var i :| 0 <= i < |lines| && lines[i].Assignment? && lines[i].key == key;
      var last := LastOne(lines, i);
    }
  }

  lemma {:induction false} AddsTwo(items: seq<string>, key: string, value: string, other: string, value': string)
    requires '=' !in key && '=' !in other && key != other && key !in FirstValues(items) && other !in FirstValues(items)
    ensures FirstValues(items + [key + "=" + value, other + "=" + value']) == FirstValues(items)[key := value][other := value']
  {
    CutJoined(key, value);
    CutJoined(other, value');
    hide Cut, FirstValues;
    AddsOne(items, key + "=" + value);
    AddsOne(items + [key + "=" + value], other + "=" + value');
    assert items + [key + "=" + value, other + "=" + value'] == items + [key + "=" + value] + [other + "=" + value'];
  }

  lemma NamesAreNames()
    ensures '=' !in BASE_PATH && '=' !in BYOK_MODELS && |BASE_PATH| == 19 && |BYOK_MODELS| == 37
  {}

  ghost predicate AssignedIn(dotenv: string, key: string) {
    exists i: nat :: LastAssignment(Meanings(dotenv), i) && Meanings(dotenv)[i].key == key
  }

  /** Without other sources, the process gets its base path, "/" when none is configured, and the model switch. */
  lemma {:induction false} DefaultsOfTheProcess(environ: seq<string>, dotenv: string, home: string, user: string, configured: string, environment: seq<string>)
    requires LaunchedAs(environ, dotenv, home, user, configured, Launched(environment))
    requires !AssignedIn(dotenv, BASE_PATH) && !AssignedIn(dotenv, BYOK_MODELS)
    requires BASE_PATH !in FirstValues(environ) && BYOK_MODELS !in FirstValues(environ)
    ensures var env := FirstValues(environment);
            && BASE_PATH in env && env[BASE_PATH] == (if configured == "" then "/" else configured)
            && BYOK_MODELS in env && env[BYOK_MODELS] == "true"
  {
    NamesAreNames();
    hide LaunchedAs, Meanings, FirstValues, Cut, BASE_PATH, BYOK_MODELS;
    OtherVariable(environ, dotenv, home, user, configured, environment, BASE_PATH);
    OtherVariable(environ, dotenv, home, user, configured, environment, BYOK_MODELS);
    AddsTwo(environ, BASE_PATH, BasePath(configured), BYOK_MODELS, "true");
  }

  lemma {:induction false} OtherVariable(environ: seq<string>, dotenv: string, home: string, user: string, configured: string,
                      environment: seq<string>, key: string)
    requires LaunchedAs(environ, dotenv, home, user, configured, Launched(environment))
    requires !AssignedIn(dotenv, key) && |key| > 10
    ensures var env, inherited := FirstValues(environment), FirstValues(environ + Additions(BasePath(configured)));
            (key in env <==> key in inherited) && (key in env ==> env[key] == inherited[key])
  {
    hide LaunchedAs, Meanings, FirstValues, Additions, BasePath;
    VariablesOfTheProcess(environ, dotenv, home, user, configured, environment, key);
  }

  lemma {:induction false} AddsOne(items: seq<string>, item: string)
    requires Cut(item).found
    ensures FirstValues(items + [item])
         == if Cut(item).before in FirstValues(items) then FirstValues(items) else FirstValues(items)[Cut(item).before := Cut(item).after]
  {
    assert (items + [item])[..|items|] == items;
  }
}
