/** Environment and secrets of a Container App (buildEnvVars in provider/defangazure/azure/containerapp.go). */
module EnvVars {
  import opened Options
  import opened Ordering

  /** A compose value: absent, literal, or an output known only at deploy time. */
  datatype EnvValue = Nil | Static(text: string) | Dynamic(id: int)

  datatype Source = Inline(text: string) | PassThrough(id: int) | SecretRef(secret: string)

  datatype EnvVar = EnvVar(name: string, source: Source)

  datatype Secret = VaultBacked(name: string, key: string) | ValueBacked(name: string, text: string)

  /**
   * What the loop consults. configName gives the config variable a literal is a bare reference to, or "";
   * resolve gives the interpolated text of a literal and whether it embeds a secret.
   */
  datatype Context = Context(
    serviceName: string, etag: string, fqdn: string,
    policyClientId: Option<string>, llmKey: Option<string>, hasConfigProvider: bool,
    configName: string -> string, resolve: string -> (string, bool), hash: string -> string)

  function ConfigName(c: Context, key: string, v: EnvValue): string {
    match v case Nil => key case Static(s) => c.configName(s) case Dynamic(_) => ""
  }

  function SecretName(c: Context, namespace: string, key: string): string {
    namespace + "-" + c.hash(key)
  }

  // ----- what each key should become, on its own

  predicate UsesVault(c: Context, key: string, v: EnvValue) {
    !(key == "OPENAI_API_KEY" && c.llmKey.Some?) && ConfigName(c, key, v) != "" && c.hasConfigProvider
  }

  function LiteralText(v: EnvValue): string
    requires !v.Dynamic?
  {
    if v.Static? then v.text else ""
  }

  predicate UsesComposite(c: Context, key: string, v: EnvValue) {
    && !(key == "OPENAI_API_KEY" && c.llmKey.Some?) && !UsesVault(c, key, v)
    && !v.Dynamic? && c.resolve(LiteralText(v)).1
  }

  function SourceOf(c: Context, key: string, v: EnvValue): Source {
    if key == "OPENAI_API_KEY" && c.llmKey.Some? then Inline(c.llmKey.value)
    else if UsesVault(c, key, v) then SecretRef(SecretName(c, "config", ConfigName(c, key, v)))
    else if v.Dynamic? then PassThrough(v.id)
    else if c.resolve(LiteralText(v)).1 then SecretRef(SecretName(c, "env", key))
    else Inline(c.resolve(LiteralText(v)).0)
  }

  /** The secret a key needs declared. */
  function SecretOf(c: Context, key: string, v: EnvValue): Option<Secret> {
    if UsesVault(c, key, v) then
      Some(VaultBacked(SecretName(c, "config", ConfigName(c, key, v)), ConfigName(c, key, v)))
    else if UsesComposite(c, key, v) then
      Some(ValueBacked(SecretName(c, "env", key), c.resolve(LiteralText(v)).0))
    else None
  }

  function UserVars(c: Context, env: map<string, EnvValue>, keys: seq<string>): seq<EnvVar>
    requires forall k :: k in keys ==> k in env
  {
    seq(|keys|, i requires 0 <= i < |keys| => EnvVar(keys[i], SourceOf(c, keys[i], env[keys[i]])))
  }

  /** The variables put in front of the user's. */
  function Presets(c: Context, env: map<string, EnvValue>): seq<EnvVar> {
    [EnvVar("DEFANG_SERVICE", Inline(c.serviceName))]
    + (if c.policyClientId.Some? && "AZURE_CLIENT_ID" !in env
       then [EnvVar("AZURE_CLIENT_ID", Inline(c.policyClientId.value))] else [])
    + (if c.etag != "" then [EnvVar("DEFANG_ETAG", Inline(c.etag))] else [])
    + (if c.fqdn != "" then [EnvVar("DEFANG_FQDN", Inline(c.fqdn))] else [])
  }

  ghost predicate Injective(hash: string -> string) {
    forall a, b :: hash(a) == hash(b) ==> a == b
  }

  // ----- the declared secrets

  predicate DistinctNames(secrets: seq<Secret>) {
    forall i, j :: 0 <= i < j < |secrets| ==> secrets[i].name != secrets[j].name
  }

  ghost predicate HasVault(secrets: seq<Secret>) {
    exists s :: s in secrets && s.VaultBacked?
  }

  /** Declared is exactly what the keys need. */
  ghost predicate Declares(c: Context, env: map<string, EnvValue>, keys: seq<string>, secrets: seq<Secret>)
    requires forall k :: k in keys ==> k in env
  {
    && (forall k :: k in keys ==> SecretOf(c, k, env[k]).None? || SecretOf(c, k, env[k]).value in secrets)
    && forall s :: s in secrets ==> exists k :: k in keys && SecretOf(c, k, env[k]) == Some(s)
  }

  method BuildEnvVars(c: Context, env: map<string, EnvValue>)
    returns (envs: seq<EnvVar>, secrets: seq<Secret>, hasKeyVaultSecret: bool, ghost keys: seq<string>)
    requires Injective(c.hash)
    ensures IsListing(keys, env.Keys)
    ensures envs == Presets(c, env) + UserVars(c, env, keys)
    ensures Declares(c, env, keys, secrets) && DistinctNames(secrets)
    ensures hasKeyVaultSecret <==> HasVault(secrets)
    ensures |keys| <= |envs| && PresetsFit(c, env, envs[..|envs| - |keys|])
    ensures UserEntriesFit(c, env, keys, envs[|envs| - |keys|..], secrets)
  {
    envs := [EnvVar("DEFANG_SERVICE", Inline(c.serviceName))];
    if c.policyClientId.Some? && "AZURE_CLIENT_ID" !in env {
      envs := envs + [EnvVar("AZURE_CLIENT_ID", Inline(c.policyClientId.value))];
    }
    if c.etag != "" {
      envs := envs + [EnvVar("DEFANG_ETAG", Inline(c.etag))];
    }
    if c.fqdn != "" {
      envs := envs + [EnvVar("DEFANG_FQDN", Inline(c.fqdn))];
    }
    assert envs == Presets(c, env);
    var user;
    user, secrets, hasKeyVaultSecret, keys := BuildUserVars(c, env);
    EntriesFit(c, env, keys, secrets);
    PresetsMeaning(c, env);
    envs := envs + user;
    assert |user| == |keys| && envs[..|envs| - |keys|] == Presets(c, env) && envs[|envs| - |keys|..] == user;
  }

  // ----- the same in the source's own cases

  /** What is set besides the user's variables: the client id unless the user sets it, the others if known. */
  ghost predicate PresetsFit(c: Context, env: map<string, EnvValue>, presets: seq<EnvVar>) {
    forall e :: e in presets <==>
      || e == EnvVar("DEFANG_SERVICE", Inline(c.serviceName))
      || (c.policyClientId.Some? && "AZURE_CLIENT_ID" !in env
          && e == EnvVar("AZURE_CLIENT_ID", Inline(c.policyClientId.value)))
      || (c.etag != "" && e == EnvVar("DEFANG_ETAG", Inline(c.etag)))
      || (c.fqdn != "" && e == EnvVar("DEFANG_FQDN", Inline(c.fqdn)))
  }

  lemma PresetsMeaning(c: Context, env: map<string, EnvValue>)
    ensures PresetsFit(c, env, Presets(c, env))
  {
  }

  /** source stands for the config variable x in the vault. */
  ghost predicate IsVaultRef(c: Context, source: Source, x: string, secrets: seq<Secret>) {
    source == SecretRef("config-" + c.hash(x)) && VaultBacked("config-" + c.hash(x), x) in secrets
  }

  lemma SecretNameText(c: Context, key: string)
    ensures SecretName(c, "config", key) == "config-" + c.hash(key)
    ensures SecretName(c, "env", key) == "env-" + c.hash(key)
  {
  }

  /**
   * The model's key comes first; then a reference to a config variable, kept in the vault; then literal text,
   * which is never shown if it embeds a secret; a value known only later passes through.
   */
  ghost predicate EntryFits(c: Context, k: string, v: EnvValue, source: Source, secrets: seq<Secret>) {
    if k == "OPENAI_API_KEY" && c.llmKey.Some? then source == Inline(c.llmKey.value)
    else if c.hasConfigProvider && v.Nil? && k != "" then IsVaultRef(c, source, k, secrets)
    else if c.hasConfigProvider && v.Static? && c.configName(v.text) != "" then
      IsVaultRef(c, source, c.configName(v.text), secrets)
    else if v.Dynamic? then source == PassThrough(v.id)
    else
      var (text, hasSecret) := c.resolve(if v.Static? then v.text else "");
      if hasSecret then source == SecretRef("env-" + c.hash(k)) && ValueBacked("env-" + c.hash(k), text) in secrets
      else source == Inline(text)
  }

  ghost predicate UserEntriesFit(
    c: Context, env: map<string, EnvValue>, keys: seq<string>, user: seq<EnvVar>, secrets: seq<Secret>)
  {
    && |user| == |keys|
    && forall i :: 0 <= i < |keys| ==>
         keys[i] in env && user[i].name == keys[i] && EntryFits(c, keys[i], env[keys[i]], user[i].source, secrets)
  }

  lemma EntriesFit(c: Context, env: map<string, EnvValue>, keys: seq<string>, secrets: seq<Secret>)
    requires (forall k :: k in keys ==> k in env) && Declares(c, env, keys, secrets)
    ensures UserEntriesFit(c, env, keys, UserVars(c, env, keys), secrets)
  {
    forall i | 0 <= i < |keys| ensures EntryFits(c, keys[i], env[keys[i]], SourceOf(c, keys[i], env[keys[i]]), secrets) {
      SecretNameText(c, keys[i]);
      SecretNameText(c, ConfigName(c, keys[i], env[keys[i]]));
      assert SecretOf(c, keys[i], env[keys[i]]).None? || SecretOf(c, keys[i], env[keys[i]]).value in secrets;
    }
  }

  /** The loop over the user's own variables. */
  method BuildUserVars(c: Context, env: map<string, EnvValue>)
    returns (envs: seq<EnvVar>, secrets: seq<Secret>, hasKeyVaultSecret: bool, ghost keys: seq<string>)
    requires Injective(c.hash)
    ensures IsListing(keys, env.Keys)
    ensures envs == UserVars(c, env, keys)
    ensures Declares(c, env, keys, secrets) && DistinctNames(secrets)
    ensures hasKeyVaultSecret <==> HasVault(secrets)
  {
    var sorted := SortedKeys(env.Keys);
    envs, secrets, hasKeyVaultSecret := [], [], false;
    var kvSecretNames: map<string, string> := map[];
    for i := 0 to |sorted|
      invariant envs == UserVars(c, env, sorted[..i])
      invariant Declares(c, env, sorted[..i], secrets) && DistinctNames(secrets)
      invariant hasKeyVaultSecret <==> HasVault(secrets)
      invariant MintedFits(c, kvSecretNames, secrets)
    {
      var k := sorted[i];
      var v := env[k];
      ghost var done := sorted[..i];
      assert sorted[..i + 1] == done + [k];
      ListedOnce(sorted, i);
      UserVarsStep(c, env, done, k);
      if k == "OPENAI_API_KEY" && c.llmKey.Some? {
        envs := envs + [EnvVar(k, Inline(c.llmKey.value))];
        DeclaresSame(c, env, done, k, secrets);
      } else if ConfigName(c, k, v) != "" && c.hasConfigProvider {
        var secretVar := ConfigName(c, k, v);
        var appSecretName := SecretName(c, "config", secretVar);
        if secretVar !in kvSecretNames {
          NewSecret(c, env, done, k, secrets, kvSecretNames);
          kvSecretNames := kvSecretNames[secretVar := appSecretName];
          secrets := secrets + [VaultBacked(appSecretName, secretVar)];
          hasKeyVaultSecret := true;
        } else {
          appSecretName := kvSecretNames[secretVar];
          DeclaresSame(c, env, done, k, secrets);
        }
        envs := envs + [EnvVar(k, SecretRef(appSecretName))];
      } else if !v.Dynamic? {
        var (text, hasSecret) := c.resolve(LiteralText(v));
        if hasSecret {
          NewSecret(c, env, done, k, secrets, kvSecretNames);
          secrets := secrets + [ValueBacked(SecretName(c, "env", k), text)];
          envs := envs + [EnvVar(k, SecretRef(SecretName(c, "env", k)))];
        } else {
          DeclaresSame(c, env, done, k, secrets);
          envs := envs + [EnvVar(k, Inline(text))];
        }
      } else {
        DeclaresSame(c, env, done, k, secrets);
        envs := envs + [EnvVar(k, PassThrough(v.id))];
      }
    }
    assert sorted[..|sorted|] == sorted;
    keys := sorted;
  }

  /** The map of minted names knows exactly the vault-backed secrets. */
  ghost predicate MintedFits(c: Context, minted: map<string, string>, secrets: seq<Secret>) {
    && (forall x :: x in minted ==>
         minted[x] == SecretName(c, "config", x) && VaultBacked(SecretName(c, "config", x), x) in secrets)
    && forall s :: s in secrets && s.VaultBacked? ==> s.key in minted
  }

  lemma UserVarsStep(c: Context, env: map<string, EnvValue>, done: seq<string>, k: string)
    requires (forall x :: x in done ==> x in env) && k in env
    ensures UserVars(c, env, done + [k]) == UserVars(c, env, done) + [EnvVar(k, SourceOf(c, k, env[k]))]
  {
  }

  lemma DeclaresSame(c: Context, env: map<string, EnvValue>, done: seq<string>, k: string, secrets: seq<Secret>)
    requires (forall x :: x in done ==> x in env) && k in env
    requires Declares(c, env, done, secrets)
    requires SecretOf(c, k, env[k]).None? || SecretOf(c, k, env[k]).value in secrets
    ensures Declares(c, env, done + [k], secrets)
  {
    forall s | s in secrets ensures exists x :: x in done + [k] && SecretOf(c, x, env[x]) == Some(s) {
      var x :| x in done && SecretOf(c, x, env[x]) == Some(s);
      assert x in done + [k];
    }
  }

  lemma SecretNamesDiffer(c: Context, a: string, b: string)
    requires Injective(c.hash)
    ensures SecretName(c, "config", a) != SecretName(c, "env", b)
    ensures SecretName(c, "config", a) == SecretName(c, "config", b) ==> a == b
    ensures SecretName(c, "env", a) == SecretName(c, "env", b) ==> a == b
  {
    assert SecretName(c, "config", a)[0] == 'c' && SecretName(c, "env", b)[0] == 'e';
    assert SecretName(c, "config", a)[7..] == c.hash(a) && SecretName(c, "config", b)[7..] == c.hash(b);
    assert SecretName(c, "env", a)[4..] == c.hash(a) && SecretName(c, "env", b)[4..] == c.hash(b);
  }

  /** A secret declared for a key that has none yet has a name of its own. */
  lemma NewSecret(c: Context, env: map<string, EnvValue>, done: seq<string>, k: string, secrets: seq<Secret>,
                  minted: map<string, string>)
    requires Injective(c.hash) && (forall x :: x in done ==> x in env) && k in env && k !in done
    requires Declares(c, env, done, secrets) && DistinctNames(secrets) && MintedFits(c, minted, secrets)
    requires SecretOf(c, k, env[k]).Some?
    requires UsesVault(c, k, env[k]) ==> ConfigName(c, k, env[k]) !in minted
    ensures var s := SecretOf(c, k, env[k]).value;
      && DistinctNames(secrets + [s]) && Declares(c, env, done + [k], secrets + [s])
      && MintedFits(c, if s.VaultBacked? then minted[s.key := s.name] else minted, secrets + [s])
      && (HasVault(secrets + [s]) <==> HasVault(secrets) || s.VaultBacked?)
  {
    NewName(c, env, done, k, secrets, minted);
    NewDeclared(c, env, done, k, secrets);
    NewMinted(c, SecretOf(c, k, env[k]).value, secrets, minted);
  }

  lemma NewMinted(c: Context, s: Secret, secrets: seq<Secret>, minted: map<string, string>)
    requires MintedFits(c, minted, secrets)
    requires s.VaultBacked? ==> s.name == SecretName(c, "config", s.key)
    ensures MintedFits(c, if s.VaultBacked? then minted[s.key := s.name] else minted, secrets + [s])
    ensures HasVault(secrets + [s]) <==> HasVault(secrets) || s.VaultBacked?
  {
    assert forall t :: t in secrets + [s] <==> t in secrets || t == s;
  }

  lemma NewName(c: Context, env: map<string, EnvValue>, done: seq<string>, k: string, secrets: seq<Secret>,
                minted: map<string, string>)
    requires Injective(c.hash) && (forall x :: x in done ==> x in env) && k in env && k !in done
    requires Declares(c, env, done, secrets) && DistinctNames(secrets) && MintedFits(c, minted, secrets)
    requires SecretOf(c, k, env[k]).Some?
    requires UsesVault(c, k, env[k]) ==> ConfigName(c, k, env[k]) !in minted
    ensures DistinctNames(secrets + [SecretOf(c, k, env[k]).value])
  {
    var s := SecretOf(c, k, env[k]).value;
    forall i | 0 <= i < |secrets| ensures secrets[i].name != s.name {
      assert secrets[i] in secrets;
      var x :| x in done && SecretOf(c, x, env[x]) == Some(secrets[i]);
      SecretNamesDiffer(c, ConfigName(c, x, env[x]), k);
      SecretNamesDiffer(c, ConfigName(c, k, env[k]), x);
      SecretNamesDiffer(c, ConfigName(c, k, env[k]), ConfigName(c, x, env[x]));
      SecretNamesDiffer(c, k, x);
    }
  }

  lemma NewDeclared(c: Context, env: map<string, EnvValue>, done: seq<string>, k: string, secrets: seq<Secret>)
    requires (forall x :: x in done ==> x in env) && k in env
    requires Declares(c, env, done, secrets) && SecretOf(c, k, env[k]).Some?
    ensures Declares(c, env, done + [k], secrets + [SecretOf(c, k, env[k]).value])
  {
    var s := SecretOf(c, k, env[k]).value;
    var all, keys := secrets + [s], done + [k];
    forall t | t in all ensures exists x :: x in keys && SecretOf(c, x, env[x]) == Some(t) {
      if t in secrets {
        var x :| x in done && SecretOf(c, x, env[x]) == Some(t);
        assert x in keys;
      } else {
        assert k in keys;
      }
    }
    forall x | x in keys ensures SecretOf(c, x, env[x]).None? || SecretOf(c, x, env[x]).value in all {
      assert x in done || x == k;
      assert s == all[|secrets|];
    }
  }

  // ----- what the deployment may rely on

  /** secrets[i] is what k needs, and the only one by the name k refers to. */
  ghost predicate IsOnlyFor(c: Context, k: string, v: EnvValue, secrets: seq<Secret>, i: nat)
    requires i < |secrets|
  {
    && SourceOf(c, k, v) == SecretRef(secrets[i].name) && SecretOf(c, k, v) == Some(secrets[i])
    && forall j :: 0 <= j < |secrets| && secrets[j].name == secrets[i].name ==> j == i
  }

  /** Every secret reference finds one declared secret, the one its key needs. */
  lemma ReferencesResolve(c: Context, env: map<string, EnvValue>, keys: seq<string>, secrets: seq<Secret>, k: string)
    requires (forall x :: x in keys ==> x in env) && Declares(c, env, keys, secrets) && DistinctNames(secrets)
    requires k in keys && SourceOf(c, k, env[k]).SecretRef?
    ensures exists i :: 0 <= i < |secrets| && IsOnlyFor(c, k, env[k], secrets, i)
  {
    var s := SecretOf(c, k, env[k]).value;
    assert s in secrets;
    var i :| 0 <= i < |secrets| && secrets[i] == s;
    assert IsOnlyFor(c, k, env[k], secrets, i);
  }

  /** And no secret is declared that nothing refers to. */
  lemma SecretsAreReferenced(c: Context, env: map<string, EnvValue>, keys: seq<string>, secrets: seq<Secret>, s: Secret)
    requires (forall x :: x in keys ==> x in env) && Declares(c, env, keys, secrets) && s in secrets
    ensures exists k :: k in keys && SourceOf(c, k, env[k]) == SecretRef(s.name)
  {
    var k :| k in keys && SecretOf(c, k, env[k]) == Some(s);
    assert SourceOf(c, k, env[k]) == SecretRef(s.name);
  }

  /** Two keys share a secret iff both are references to the same config variable, or they are one key. */
  lemma SharedExactly(c: Context, env: map<string, EnvValue>, a: string, b: string)
    requires Injective(c.hash) && a in env && b in env
    requires SourceOf(c, a, env[a]).SecretRef? && SourceOf(c, b, env[b]).SecretRef?
    ensures SourceOf(c, a, env[a]) == SourceOf(c, b, env[b]) <==>
      a == b || (UsesVault(c, a, env[a]) && UsesVault(c, b, env[b])
                 && ConfigName(c, a, env[a]) == ConfigName(c, b, env[b]))
  {
    SecretNamesDiffer(c, ConfigName(c, a, env[a]), b);
    SecretNamesDiffer(c, ConfigName(c, b, env[b]), a);
    SecretNamesDiffer(c, ConfigName(c, a, env[a]), ConfigName(c, b, env[b]));
    SecretNamesDiffer(c, a, b);
  }

  predicate DistinctVars(envs: seq<EnvVar>) {
    forall i, j :: 0 <= i < j < |envs| ==> envs[i].name != envs[j].name
  }

  lemma PresetNames(c: Context, env: map<string, EnvValue>)
    ensures DistinctVars(Presets(c, env))
    ensures forall e :: e in Presets(c, env) ==>
      e.name == "DEFANG_SERVICE" || (e.name == "AZURE_CLIENT_ID" && e.name !in env)
      || (e.name == "DEFANG_ETAG" && c.etag != "") || (e.name == "DEFANG_FQDN" && c.fqdn != "")
    ensures exists e :: e in Presets(c, env) && e.name == "DEFANG_SERVICE"
    ensures c.etag != "" ==> exists e :: e in Presets(c, env) && e.name == "DEFANG_ETAG"
    ensures c.fqdn != "" ==> exists e :: e in Presets(c, env) && e.name == "DEFANG_FQDN"
  {
    var p := Presets(c, env);
    var azure := c.policyClientId.Some? && "AZURE_CLIENT_ID" !in env;
    var etag := 1 + if azure then 1 else 0;
    var fqdn := etag + if c.etag != "" then 1 else 0;
    assert "DEFANG_SERVICE"[7] == 'S' && "AZURE_CLIENT_ID"[0] == 'A' && "DEFANG_ETAG"[7] == 'E' && "DEFANG_FQDN"[7] == 'F';
    assert p[0].name == "DEFANG_SERVICE" && p[0] in p;
    assert azure ==> p[1].name == "AZURE_CLIENT_ID";
    assert c.etag != "" ==> p[etag].name == "DEFANG_ETAG" && p[etag] in p;
    assert c.fqdn != "" ==> p[fqdn].name == "DEFANG_FQDN" && p[fqdn] in p;
  }

  /** The presets the user's own keys clash with; only AZURE_CLIENT_ID gives way to the user. */
  predicate Clashes(c: Context, env: map<string, EnvValue>) {
    "DEFANG_SERVICE" in env || ("DEFANG_ETAG" in env && c.etag != "") || ("DEFANG_FQDN" in env && c.fqdn != "")
  }

  /** No variable is set twice, unless the user sets one of the DEFANG_ variables that are put in front. */
  lemma NamesDistinctExactly(c: Context, env: map<string, EnvValue>, keys: seq<string>)
    requires IsListing(keys, env.Keys)
    ensures DistinctVars(Presets(c, env) + UserVars(c, env, keys)) <==> !Clashes(c, env)
  {
    var p, u := Presets(c, env), UserVars(c, env, keys);
    PresetNames(c, env);
    UserNames(c, env, keys);
    DistinctConcat(p, u);
    forall k | k in env ensures exists e :: e in u && e.name == k {
      var j :| 0 <= j < |keys| && keys[j] == k;
      assert u[j] in u && u[j].name == k;
    }
  }

  lemma UserNames(c: Context, env: map<string, EnvValue>, keys: seq<string>)
    requires IsListing(keys, env.Keys)
    ensures DistinctVars(UserVars(c, env, keys))
    ensures forall e :: e in UserVars(c, env, keys) ==> e.name in env
  {
    forall i, j | 0 <= i < j < |keys| ensures keys[i] != keys[j] {
      LessIrreflexive(keys[i]);
    }
  }

  lemma DistinctConcat(p: seq<EnvVar>, u: seq<EnvVar>)
    requires DistinctVars(p) && DistinctVars(u)
    ensures DistinctVars(p + u) <==> forall a, b :: a in p && b in u ==> a.name != b.name
  {
    if DistinctVars(p + u) {
      forall a, b | a in p && b in u ensures a.name != b.name {
        var i :| 0 <= i < |p| && p[i] == a;
        var j :| 0 <= j < |u| && u[j] == b;
        assert (p + u)[i] == a && (p + u)[|p| + j] == b;
      }
    }
  }
}
