/**
 * The zero-config bootstrap of the desktop app: at every start, secrets that are missing from
 * the merged environment are generated and written back to `server.env`. A start is a
 * function of the file, the two overriding environments and the random secrets drawn.
 */
module SecretBootstrap {
  import opened EnvFile
  import opened Objects
  import opened Options
  import opened Text

  /** The variables the bootstrap manages. The laws hold for any names that are distinct and can be stored. */
  datatype Names = Names(jwt: string, storage: string, storageVersion: string, api: string, bootstrapped: string) {
    predicate IsSecret(key: string) {
      key == jwt || key == storage || key == api
    }
  }

  const NAMES := Names("JWT_SECRET", "STORAGE_ENCRYPTION_KEY", "STORAGE_ENCRYPTION_KEY_VERSION", "API_KEY_SECRET",
                       "OMNIROUTE_BOOTSTRAPPED")

  predicate WellNamed(names: Names) {
    && names.jwt != names.storage && names.jwt != names.api && names.storage != names.api
    && !names.IsSecret(names.storageVersion) && !names.IsSecret(names.bootstrapped)
    && Storable((names.jwt, "")) && Storable((names.storage, "")) && Storable((names.api, ""))
    && Storable((names.storageVersion, "v1"))
  }

  predicate IsVariableName(s: string) {
    s != "" && forall c | c in s :: 'A' <= c <= 'Z' || c == '_'
  }

  lemma VariableNameIsStorable(key: string, value: string)
    requires IsVariableName(key) && (value == "" || value == "v1")
    ensures Storable((key, value))
  {
    assert key[0] in key && key[|key| - 1] in key;
  }

  lemma JwtName()
    ensures IsVariableName(NAMES.jwt) && |NAMES.jwt| == 10
  {
  }

  lemma StorageName()
    ensures IsVariableName(NAMES.storage) && |NAMES.storage| == 22 && NAMES.storage[0] == 'S'
  {
  }

  lemma StorageVersionName()
    ensures IsVariableName(NAMES.storageVersion) && |NAMES.storageVersion| == 30
  {
  }

  lemma ApiName()
    ensures IsVariableName(NAMES.api) && |NAMES.api| == 14
  {
  }

  lemma BootstrappedName()
    ensures |NAMES.bootstrapped| == 22 && NAMES.bootstrapped[0] == 'O'
  {
  }

  /** The names the application uses are such names. */
  lemma NamesAreWellNamed()
    ensures WellNamed(NAMES)
  {
    JwtName();
    StorageName();
    StorageVersionName();
    ApiName();
    BootstrappedName();
    VariableNameIsStorable(NAMES.jwt, "");
    VariableNameIsStorable(NAMES.storage, "");
    VariableNameIsStorable(NAMES.api, "");
    VariableNameIsStorable(NAMES.storageVersion, "v1");
  }

  /** Freshly drawn secrets, in hexadecimal. */
  datatype Secrets = Secrets(jwt: string, storage: string, api: string)

  predicate IsHexText(s: string) {
    s != "" && forall c | c in s :: IsDigit(c) || 'a' <= c <= 'f'
  }

  predicate WellDrawn(secrets: Secrets) {
    IsHexText(secrets.jwt) && IsHexText(secrets.storage) && IsHexText(secrets.api)
  }

  /** A start in progress: what goes on file, what the server runs with, and whether anything was generated. */
  datatype Running = Running(persisted: Env, server: map<string, string>, changed: bool) {
    function Assign(key: string, value: string): Running {
      Running(Put(persisted, (key, value), Exact), server[key := value], true)
    }

    /** Assigned only when missing. */
    function Fill(key: string, value: string): Running {
      if Missing(key) then Assign(key, value) else this
    }

    /** A secret counts as missing when it is absent or blank in the merged environment. */
    predicate Missing(key: string) {
      key !in server || server[key] == ""
    }
  }

  datatype Outcome = Refused | Started(run: Running)

  function ToMap(env: Env): map<string, string> {
    if env == [] then map[] else ToMap(env[..|env| - 1])[env[|env| - 1].0 := env[|env| - 1].1]
  }

  /** The running environment with every missing secret filled in, in order. */
  function Filled(names: Names, start: Running, drawn: Secrets): Running {
    var r1 := start.Fill(names.jwt, drawn.jwt);
    var r2 := if r1.Missing(names.storage)
              then r1.Assign(names.storage, drawn.storage).Assign(names.storageVersion, "v1") else r1;
    r2.Fill(names.api, drawn.api)
  }

  function Finished(names: Names, r: Running): Running {
    if r.changed then r.(server := r.server[names.bootstrapped := "true"]) else r
  }

  /** What a start keeps on file and runs with; `overrides` are the environments that win over the file. */
  function Bootstrap(names: Names, persisted: Env, overrides: map<string, string>, encrypted: bool,
                     drawn: Secrets): Outcome
  {
    var start := Running(persisted, ToMap(persisted) + overrides, false);
    if start.Fill(names.jwt, drawn.jwt).Missing(names.storage) && encrypted then Refused
    else Started(Finished(names, Filled(names, start, drawn)))
  }

  method EnsureSecrets(names: Names, persistedAtStart: Env, preferred: map<string, string>,
                       process: map<string, string>, encrypted: bool, drawn: Secrets)
    returns (outcome: Outcome)
    ensures outcome == Bootstrap(names, persistedAtStart, preferred + process, encrypted, drawn)
  {
    var persisted := persistedAtStart;
    var server := ToMap(persisted) + preferred + process;
    assert server == ToMap(persistedAtStart) + (preferred + process);
    var changed := false;
    if names.jwt !in server || server[names.jwt] == "" {
      server, persisted, changed := server[names.jwt := drawn.jwt], Put(persisted, (names.jwt, drawn.jwt), Exact), true;
    }
    if names.storage !in server || server[names.storage] == "" {
      if encrypted {
        return Refused;
      }
      server := server[names.storage := drawn.storage];
      persisted := Put(persisted, (names.storage, drawn.storage), Exact);
      server := server[names.storageVersion := "v1"];
      persisted := Put(persisted, (names.storageVersion, "v1"), Exact);
      changed := true;
    }
    if names.api !in server || server[names.api] == "" {
      server, persisted, changed := server[names.api := drawn.api], Put(persisted, (names.api, drawn.api), Exact), true;
    }
    if changed {
      server := server[names.bootstrapped := "true"];
    }
    outcome := Started(Running(persisted, server, changed));
  }

  // ----------------------------------------------------------------- file contents

  lemma {:induction false} ToMapHas(env: Env, key: string)
    requires Unique(env, Exact)
    ensures
      var i := Position(env, key, Exact);
      if i < 0 then key !in ToMap(env) else key in ToMap(env) && ToMap(env)[key] == env[i].1
  {
    if env != [] {
      var init, last := env[..|env| - 1], env[|env| - 1];
      ToMapHas(init, key);
      var i := Position(env, key, Exact);
      var j := Position(init, key, Exact);
      if i >= 0 && i < |init| {
        assert init[i] == env[i];
      }
    }
  }

  lemma ToMapPut(env: Env, key: string, value: string, other: string)
    requires Unique(env, Exact)
    ensures Unique(Put(env, (key, value), Exact), Exact)
    ensures
      var after := ToMap(Put(env, (key, value), Exact));
      && key in after && after[key] == value
      && (other != key ==>
            && (other in after <==> other in ToMap(env))
            && (other in after ==> after[other] == ToMap(env)[other]))
  {
    var after := Put(env, (key, value), Exact);
    var p := Position(env, key, Exact);
    assert after[if p < 0 then |env| else p] == (key, value);
    ToMapHas(after, key);
    ToMapHas(after, other);
    ToMapHas(env, other);
    var i, j := Position(env, other, Exact), Position(after, other, Exact);
    if other != key {
      if i >= 0 {
        assert after[i] == env[i];
      }
      if j >= 0 && j < |env| {
        assert after[j] == env[j];
      }
    }
  }

  lemma HexIsStorable(key: string, value: string)
    requires Storable((key, "")) && IsHexText(value)
    ensures Storable((key, value))
  {
    assert value[0] in value && value[|value| - 1] in value;
  }

  // --------------------------------------------------------------------- restarts

  /** What a later start needs to find the secret again. */
  ghost predicate Settled(r: Running, overrides: map<string, string>, key: string) {
    && !r.Missing(key)
    && (key in overrides && overrides[key] != "" ==> r.server[key] == overrides[key])
    && (key !in overrides ==> key in ToMap(r.persisted) && ToMap(r.persisted)[key] == r.server[key])
  }

  /** Nothing on file is lost, and what the server runs with comes from the file or the overrides. */
  ghost predicate InProgress(r: Running, overrides: map<string, string>, key: string) {
    && Unique(r.persisted, Exact) && AllStorable(r.persisted)
    && (r.Missing(key) ==> key in overrides ==> overrides[key] == "")
    && (!r.Missing(key) ==> Settled(r, overrides, key))
  }

  lemma AssignSecret(r: Running, overrides: map<string, string>, key: string, value: string)
    requires InProgress(r, overrides, key) && r.Missing(key)
    requires Storable((key, value)) && value != ""
    ensures InProgress(r.Assign(key, value), overrides, key) && Settled(r.Assign(key, value), overrides, key)
  {
    ToMapPut(r.persisted, key, value, key);
    PutStorable(r.persisted, (key, value));
  }

  lemma AssignOther(r: Running, overrides: map<string, string>, key: string, other: string, value: string)
    requires InProgress(r, overrides, key) && other != key && Storable((other, value))
    ensures InProgress(r.Assign(other, value), overrides, key)
    ensures r.Assign(other, value).Missing(key) == r.Missing(key)
  {
    ToMapPut(r.persisted, other, value, key);
    PutStorable(r.persisted, (other, value));
  }

  lemma FillSettles(r: Running, overrides: map<string, string>, step: string, value: string, key: string)
    requires InProgress(r, overrides, key) && Storable((step, value)) && value != ""
    ensures InProgress(r.Fill(step, value), overrides, key)
    ensures r.Fill(step, value).Missing(key) <==> r.Missing(key) && step != key
  {
    if r.Missing(step) {
      if step == key {
        AssignSecret(r, overrides, key, value);
      } else {
        AssignOther(r, overrides, key, step, value);
      }
    }
  }

  lemma StorageSettles(names: Names, r1: Running, overrides: map<string, string>, drawn: Secrets, key: string)
    returns (r2: Running)
    requires WellNamed(names) && WellDrawn(drawn) && names.IsSecret(key)
    requires InProgress(r1, overrides, key)
    ensures r2 == if r1.Missing(names.storage)
                  then r1.Assign(names.storage, drawn.storage).Assign(names.storageVersion, "v1") else r1
    ensures InProgress(r2, overrides, key) && (r2.Missing(key) <==> r1.Missing(key) && names.storage != key)
  {
    HexIsStorable(names.storage, drawn.storage);
    FillSettles(r1, overrides, names.storage, drawn.storage, key);
    r2 := r1;
    if r1.Missing(names.storage) {
      AssignOther(r1.Assign(names.storage, drawn.storage), overrides, key, names.storageVersion, "v1");
      r2 := r1.Assign(names.storage, drawn.storage).Assign(names.storageVersion, "v1");
    }
  }

  /** The fills leave each of the secrets settled. */
  lemma FillsSettle(names: Names, start: Running, overrides: map<string, string>, drawn: Secrets, key: string)
    requires WellNamed(names) && WellDrawn(drawn) && names.IsSecret(key)
    requires InProgress(start, overrides, key)
    ensures var r := Filled(names, start, drawn); InProgress(r, overrides, key) && !r.Missing(key)
  {
    HexIsStorable(names.jwt, drawn.jwt);
    HexIsStorable(names.api, drawn.api);
    FillSettles(start, overrides, names.jwt, drawn.jwt, key);
    var r2 := StorageSettles(names, start.Fill(names.jwt, drawn.jwt), overrides, drawn, key);
    FillSettles(r2, overrides, names.api, drawn.api, key);
  }

  lemma FinishedStaysSettled(names: Names, r: Running, overrides: map<string, string>, key: string)
    requires names.bootstrapped != key
    requires InProgress(r, overrides, key) && !r.Missing(key)
    ensures var f := Finished(names, r);
      f.persisted == r.persisted && f.changed == r.changed && InProgress(f, overrides, key) && !f.Missing(key)
  {
  }

  lemma StartInProgress(persisted: Env, overrides: map<string, string>, key: string)
    requires Unique(persisted, Exact) && AllStorable(persisted)
    ensures InProgress(Running(persisted, ToMap(persisted) + overrides, false), overrides, key)
  {
  }

  /** A start that is not refused ends with every secret settled, and with a file that can be written. */
  lemma StartSettles(names: Names, persisted: Env, overrides: map<string, string>, encrypted: bool, drawn: Secrets,
                     key: string)
    requires Unique(persisted, Exact) && AllStorable(persisted) && WellDrawn(drawn)
    requires WellNamed(names) && names.IsSecret(key)
    requires Bootstrap(names, persisted, overrides, encrypted, drawn).Started?
    ensures
      var run := Bootstrap(names, persisted, overrides, encrypted, drawn).run;
      InProgress(run, overrides, key) && !run.Missing(key)
  {
    var start := Running(persisted, ToMap(persisted) + overrides, false);
    StartInProgress(persisted, overrides, key);
    FillsSettle(names, start, overrides, drawn, key);
    FinishedStaysSettled(names, Filled(names, start, drawn), overrides, key);
  }

  /** The file after a start: rewritten when something was generated. */
  function FileAfter(file: Option<string>, outcome: Outcome): Option<string> {
    if outcome.Started? && outcome.run.changed then Some(Serialize(outcome.run.persisted)) else file
  }

  /** An override that is present but blank hides the secret on file. */
  predicate BlankOverride(overrides: map<string, string>, key: string) {
    key in overrides && overrides[key] == ""
  }

  /** Merging a settled file with the same overrides finds the secret again unless a blank hides it. */
  lemma SettledIsFoundAgain(run: Running, overrides: map<string, string>, key: string)
    requires InProgress(run, overrides, key) && !run.Missing(key)
    ensures
      var merged := ToMap(run.persisted) + overrides;
      && (Running(run.persisted, merged, false).Missing(key) <==> BlankOverride(overrides, key))
      && (!BlankOverride(overrides, key) ==> merged[key] == run.server[key])
  {
  }

  /** A start generates nothing exactly when no secret is missing to begin with. */
  lemma UnchangedIff(names: Names, persisted: Env, overrides: map<string, string>, encrypted: bool, drawn: Secrets)
    requires WellNamed(names)
    ensures
      var start := Running(persisted, ToMap(persisted) + overrides, false);
      var outcome := Bootstrap(names, persisted, overrides, encrypted, drawn);
      && (outcome.Started? && !outcome.run.changed <==>
            !start.Missing(names.jwt) && !start.Missing(names.storage) && !start.Missing(names.api))
      && (outcome.Started? && !outcome.run.changed ==> outcome.run == start)
  {
  }

  /**
   * After any first start, a restart with the same overriding environments generates nothing,
   * and runs with the same secrets, exactly when none of them is overridden by a blank.
   */
  lemma RestartKeepsSecretsIff(names: Names, file: Option<string>, overrides: map<string, string>,
                               encrypted: bool, drawn: Secrets, encrypted': bool, drawn': Secrets)
    requires WellNamed(names) && WellDrawn(drawn) && WellDrawn(drawn')
    requires Bootstrap(names, Parse(file), overrides, encrypted, drawn).Started?
    ensures
      var first := Bootstrap(names, Parse(file), overrides, encrypted, drawn);
      var second := Bootstrap(names, Parse(FileAfter(file, first)), overrides, encrypted', drawn');
      && (second.Started? && !second.run.changed <==>
            forall key | names.IsSecret(key) :: !BlankOverride(overrides, key))
      && (second.Started? && !second.run.changed ==>
            forall key | names.IsSecret(key) :: !first.run.Missing(key) && !second.run.Missing(key)
                                                && second.run.server[key] == first.run.server[key])
  {
    var first := Bootstrap(names, Parse(file), overrides, encrypted, drawn);
    FileKeepsPersisted(names, file, overrides, encrypted, drawn);
    UnchangedIff(names, first.run.persisted, overrides, encrypted', drawn');
    ParsedIsStorable(file);
    forall key | names.IsSecret(key)
      ensures !first.run.Missing(key) && InProgress(first.run, overrides, key)
    {
      StartSettles(names, Parse(file), overrides, encrypted, drawn, key);
    }
    SettledIsFoundAgain(first.run, overrides, names.jwt);
    SettledIsFoundAgain(first.run, overrides, names.storage);
    SettledIsFoundAgain(first.run, overrides, names.api);
  }

  /** The next start reads exactly what this one kept, whether or not it rewrote the file. */
  lemma FileKeepsPersisted(names: Names, file: Option<string>, overrides: map<string, string>, encrypted: bool,
                           drawn: Secrets)
    requires WellNamed(names) && WellDrawn(drawn)
    requires Bootstrap(names, Parse(file), overrides, encrypted, drawn).Started?
    ensures
      var first := Bootstrap(names, Parse(file), overrides, encrypted, drawn);
      Parse(FileAfter(file, first)) == first.run.persisted
  {
    var first := Bootstrap(names, Parse(file), overrides, encrypted, drawn);
    ParsedIsStorable(file);
    StartSettles(names, Parse(file), overrides, encrypted, drawn, names.jwt);
    RoundTripIff(first.run.persisted);
    if !first.run.changed {
      UnchangedIff(names, Parse(file), overrides, encrypted, drawn);
    }
  }

  /** A start is refused exactly when credentials are stored and their key is missing. */
  lemma RefusedIff(names: Names, persisted: Env, overrides: map<string, string>, encrypted: bool, drawn: Secrets)
    requires WellNamed(names)
    ensures
      var start := Running(persisted, ToMap(persisted) + overrides, false);
      Bootstrap(names, persisted, overrides, encrypted, drawn).Refused? <==> encrypted && start.Missing(names.storage)
  {
  }

  /**
   * After any start that was not refused, a restart with the same overriding environments is
   * refused exactly when credentials are stored by then and a blank hides their key.
   */
  lemma BlankKeyLocksOut(names: Names, file: Option<string>, overrides: map<string, string>,
                         encrypted: bool, drawn: Secrets, encrypted': bool, drawn': Secrets)
    requires WellNamed(names) && WellDrawn(drawn) && WellDrawn(drawn')
    requires Bootstrap(names, Parse(file), overrides, encrypted, drawn).Started?
    ensures
      var first := Bootstrap(names, Parse(file), overrides, encrypted, drawn);
      var second := Bootstrap(names, Parse(FileAfter(file, first)), overrides, encrypted', drawn');
      second.Refused? <==> encrypted' && BlankOverride(overrides, names.storage)
  {
    var first := Bootstrap(names, Parse(file), overrides, encrypted, drawn);
    ParsedIsStorable(file);
    FileKeepsPersisted(names, file, overrides, encrypted, drawn);
    StartSettles(names, Parse(file), overrides, encrypted, drawn, names.storage);
    SettledIsFoundAgain(first.run, overrides, names.storage);
    RefusedIff(names, first.run.persisted, overrides, encrypted', drawn');
  }

  // ------------------------------------------------------------- what a start leaves

  /** What a start generates: each missing secret as drawn, and with the storage key its version. */
  function Generated(names: Names, start: Running, drawn: Secrets): map<string, string> {
    (if start.Missing(names.jwt) then map[names.jwt := drawn.jwt] else map[])
    + (if start.Missing(names.storage) then map[names.storage := drawn.storage, names.storageVersion := "v1"]
        else map[])
    + (if start.Missing(names.api) then map[names.api := drawn.api] else map[])
  }

  /** What came out of `start` by assigning these. */
  ghost predicate Grown(start: Running, r: Running, added: map<string, string>) {
    && Unique(r.persisted, Exact)
    && r.server == start.server + added && ToMap(r.persisted) == ToMap(start.persisted) + added
    && (r.changed <==> start.changed || added != map[])
  }

  lemma ToMapOfPut(env: Env, key: string, value: string)
    requires Unique(env, Exact)
    ensures Unique(Put(env, (key, value), Exact), Exact)
    ensures ToMap(Put(env, (key, value), Exact)) == ToMap(env)[key := value]
  {
    ToMapPut(env, key, value, key);
    var after := ToMap(Put(env, (key, value), Exact));
    forall other ensures other in after <==> other in ToMap(env)[key := value] {
      ToMapPut(env, key, value, other);
    }
    forall other | other in after ensures after[other] == ToMap(env)[key := value][other] {
      ToMapPut(env, key, value, other);
    }
  }

  lemma AssignGrows(start: Running, r: Running, added: map<string, string>, key: string, value: string)
    requires Grown(start, r, added)
    ensures Grown(start, r.Assign(key, value), added[key := value])
  {
    ToMapOfPut(r.persisted, key, value);
    AddedLast(start.server, added, key, value);
    AddedLast(ToMap(start.persisted), added, key, value);
  }

  lemma AddedLast<K, V>(a: map<K, V>, b: map<K, V>, k: K, v: V)
    ensures a + b[k := v] == (a + b)[k := v] && a[k := v] == a + map[k := v]
    ensures b[k := v] != map[]
  {
    assert k in b[k := v];
  }

  lemma FillGrows(start: Running, r: Running, added: map<string, string>, key: string, value: string)
    requires Grown(start, r, added) && key !in added
    ensures Grown(start, r.Fill(key, value), if start.Missing(key) then added[key := value] else added)
  {
    assert r.Missing(key) == start.Missing(key);
    if start.Missing(key) {
      AssignGrows(start, r, added, key, value);
    }
  }

  lemma StorageGrows(names: Names, start: Running, r: Running, added: map<string, string>, drawn: Secrets)
    requires WellNamed(names) && Grown(start, r, added) && names.storage !in added
    ensures
      var after := if r.Missing(names.storage)
                   then r.Assign(names.storage, drawn.storage).Assign(names.storageVersion, "v1") else r;
      Grown(start, after, if start.Missing(names.storage)
                          then added[names.storage := drawn.storage][names.storageVersion := "v1"] else added)
  {
    assert r.Missing(names.storage) == start.Missing(names.storage);
    if start.Missing(names.storage) {
      AssignGrows(start, r, added, names.storage, drawn.storage);
      AssignGrows(start, r.Assign(names.storage, drawn.storage), added[names.storage := drawn.storage],
                  names.storageVersion, "v1");
    }
  }

  lemma FilledGrows(names: Names, start: Running, drawn: Secrets)
    requires WellNamed(names) && Unique(start.persisted, Exact) && !start.changed
    ensures Grown(start, Filled(names, start, drawn), Generated(names, start, drawn))
  {
    NothingAdded(start);
    FillGrows(start, start, map[], names.jwt, drawn.jwt);
    var r1 := start.Fill(names.jwt, drawn.jwt);
    var g1 := Generated1(names, start, drawn);
    StorageGrows(names, start, r1, g1, drawn);
    var r2 := if r1.Missing(names.storage)
              then r1.Assign(names.storage, drawn.storage).Assign(names.storageVersion, "v1") else r1;
    var g2 := Generated2(names, start, drawn);
    FillGrows(start, r2, g2, names.api, drawn.api);
    GeneratedIs(names, start, drawn);
  }

  lemma NothingAdded(start: Running)
    requires Unique(start.persisted, Exact)
    ensures Grown(start, start, map[])
  {
    assert start.server + map[] == start.server && ToMap(start.persisted) + map[] == ToMap(start.persisted);
  }

  function Generated1(names: Names, start: Running, drawn: Secrets): map<string, string> {
    var none: map<string, string> := map[];
    if start.Missing(names.jwt) then none[names.jwt := drawn.jwt] else none
  }

  function Generated2(names: Names, start: Running, drawn: Secrets): (g: map<string, string>)
    ensures WellNamed(names) ==> names.api !in g
  {
    var g1 := Generated1(names, start, drawn);
    if start.Missing(names.storage) then g1[names.storage := drawn.storage][names.storageVersion := "v1"] else g1
  }

  lemma GeneratedIs(names: Names, start: Running, drawn: Secrets)
    requires WellNamed(names)
    ensures Generated(names, start, drawn) ==
              var g2 := Generated2(names, start, drawn);
              if start.Missing(names.api) then g2[names.api := drawn.api] else g2
  {
  }

  /**
   * The server runs with the file, the overrides and what was generated, in rising precedence,
   * plus a mark when anything was; on file is what was there and what was generated.
   */
  lemma StartLeaves(names: Names, persisted: Env, overrides: map<string, string>, encrypted: bool, drawn: Secrets)
    requires WellNamed(names) && Unique(persisted, Exact)
    requires Bootstrap(names, persisted, overrides, encrypted, drawn).Started?
    ensures
      var start := Running(persisted, ToMap(persisted) + overrides, false);
      var generated := Generated(names, start, drawn);
      var run := Bootstrap(names, persisted, overrides, encrypted, drawn).run;
      && (run.changed <==> generated != map[])
      && run.server == ToMap(persisted) + overrides + generated
                       + (if run.changed then map[names.bootstrapped := "true"] else map[])
      && ToMap(run.persisted) == ToMap(persisted) + generated
  {
    var start := Running(persisted, ToMap(persisted) + overrides, false);
    FilledGrows(names, start, drawn);
    AddedLast(Filled(names, start, drawn).server, map[], names.bootstrapped, "true");
    FinishedLeaves(names, Filled(names, start, drawn));
  }

  lemma FinishedLeaves(names: Names, r: Running)
    ensures Finished(names, r).persisted == r.persisted && Finished(names, r).changed == r.changed
    ensures Finished(names, r).server == r.server + (if r.changed then map[names.bootstrapped := "true"] else map[])
  {
    var none: map<string, string> := map[];
    assert r.server + none == r.server;
    AddedLast(r.server, none, names.bootstrapped, "true");
  }
}
