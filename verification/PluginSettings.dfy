/**
 Plugin settings: keys ending in `_env` name environment variables whose values are
 exposed under the key without the suffix; all other keys pass through.
 */
module PluginSettings {
  import opened Texts

  const SUFFIX := "_env"

  datatype Settings = Resolved(values: map<string, string>) | MissingEnv(name: string)

  predicate IsSecret(key: string) { |key| >= 4 && key[|key| - 4..] == SUFFIX }

  function Stripped(key: string): (k: string)
    requires IsSecret(key)
    ensures k + "_env" == key
  {
    key[..|key| - 4]
  }

  /** Iteration order of an ordered map: every key once, ascending. */
  ghost predicate InKeyOrder(keys: seq<string>, raw: map<string, string>) {
    && (forall k :: k in raw <==> k in keys)
    && forall i, j :: 0 <= i < j < |keys| ==> TextLess(keys[i], keys[j])
  }

  /** What the settings mean, without an order: a secret wins over a plain key of the same name. */
  ghost predicate Means(raw: map<string, string>, env: map<string, string>, values: map<string, string>) {
    && (forall k :: k in values <==> k + SUFFIX in raw || (k in raw && !IsSecret(k)))
    && (forall k :: k in values ==>
          if k + SUFFIX in raw then raw[k + SUFFIX] in env && values[k] == env[raw[k + SUFFIX]]
          else k in raw && values[k] == raw[k])
  }

  /** The settings read so far, after the first `n` keys. */
  ghost predicate SoFar(keys: seq<string>, n: nat, raw: map<string, string>, env: map<string, string>,
                        values: map<string, string>)
    requires n <= |keys| && forall k :: k in keys ==> k in raw
  {
    var seen := keys[..n];
    && (forall k :: k in values <==> k + SUFFIX in seen || (k in seen && !IsSecret(k)))
    && (forall k :: k in values ==>
          if k + SUFFIX in seen then raw[k + SUFFIX] in env && values[k] == env[raw[k + SUFFIX]]
          else k in seen && values[k] == raw[k])
  }

  lemma SuffixInjective(a: string, b: string)
    ensures a + SUFFIX == b + SUFFIX <==> a == b
    ensures IsSecret(a + SUFFIX) && Stripped(a + SUFFIX) == a
  {
    assert (a + SUFFIX)[..|a|] == a && (b + SUFFIX)[..|b|] == b;
    assert (a + SUFFIX)[|a + SUFFIX| - 4..] == SUFFIX;
  }

  /** In key order a plain key comes before the secret that would replace it. */
  lemma PlainBeforeSecret(keys: seq<string>, n: nat)
    requires n < |keys| && forall i, j :: 0 <= i < j < |keys| ==> TextLess(keys[i], keys[j])
    ensures keys[n] + SUFFIX !in keys[..n] && keys[n] !in keys[..n]
  {
    var k := keys[n];
    ProperPrefixLess(k, SUFFIX);
    forall i | 0 <= i < n ensures keys[i] != k + SUFFIX && keys[i] != k {
      TextLessIrreflexive(k);
      if keys[i] == k + SUFFIX { TextLessTransitive(k, k + SUFFIX, k); }
    }
  }

  lemma PlainStep(keys: seq<string>, n: nat, raw: map<string, string>, env: map<string, string>, values: map<string, string>)
    requires n < |keys| && InKeyOrder(keys, raw) && SoFar(keys, n, raw, env, values) && !IsSecret(keys[n])
    ensures SoFar(keys, n + 1, raw, env, values[keys[n] := raw[keys[n]]])
  {
    var key, seen, seen' := keys[n], keys[..n], keys[..n + 1];
    PlainBeforeSecret(keys, n);
    assert seen' == seen + [key];
    forall k ensures k + SUFFIX in seen' <==> k + SUFFIX in seen { SuffixInjective(k, k); }
  }

  lemma SecretStep(keys: seq<string>, n: nat, raw: map<string, string>, env: map<string, string>, values: map<string, string>)
    requires n < |keys| && InKeyOrder(keys, raw) && SoFar(keys, n, raw, env, values)
    requires IsSecret(keys[n]) && raw[keys[n]] in env
    ensures SoFar(keys, n + 1, raw, env, values[Stripped(keys[n]) := env[raw[keys[n]]]])
  {
    var key, seen, seen' := keys[n], keys[..n], keys[..n + 1];
    assert seen' == seen + [key];
    forall k ensures k + SUFFIX in seen' <==> k + SUFFIX in seen || k == Stripped(key) {
      SuffixInjective(k, Stripped(key));
    }
  }

  /** `Config::plugin_settings`: an unknown plugin has no settings; the first unset variable is an error. */
  method PluginSettings(plugins: map<string, map<string, string>>, name: string, keys: seq<string>,
                        env: map<string, string>) returns (r: Settings)
    requires name in plugins ==> InKeyOrder(keys, plugins[name])
    ensures name !in plugins ==> r == Resolved(map[])
    ensures name in plugins && r.Resolved? ==> Means(plugins[name], env, r.values)
    ensures name in plugins ==>
      (r.MissingEnv? <==> exists k :: k in plugins[name] && IsSecret(k) && plugins[name][k] !in env)
    ensures name in plugins && r.MissingEnv? ==>
      exists i :: 0 <= i < |keys| && IsSecret(keys[i]) && plugins[name][keys[i]] == r.name && r.name !in env
                  && forall j :: 0 <= j < i && IsSecret(keys[j]) ==> plugins[name][keys[j]] in env
  {
    if name !in plugins { return Resolved(map[]); }
    var raw := plugins[name];
    var values: map<string, string> := map[];
    for i := 0 to |keys|
      invariant SoFar(keys, i, raw, env, values)
      invariant forall j :: 0 <= j < i && IsSecret(keys[j]) ==> raw[keys[j]] in env
    {
      var key := keys[i];
      if IsSecret(key) {
        if raw[key] !in env { return MissingEnv(raw[key]); }
        SecretStep(keys, i, raw, env, values);
        values := values[Stripped(key) := env[raw[key]]];
      } else {
        PlainStep(keys, i, raw, env, values);
        values := values[key := raw[key]];
      }
    }
    assert keys[..|keys|] == keys;
    r := Resolved(values);
  }

  /** The meaning leaves no choice: at most one map of settings fits. */
  lemma MeaningIsUnique(raw: map<string, string>, env: map<string, string>, a: map<string, string>, b: map<string, string>)
    requires Means(raw, env, a) && Means(raw, env, b)
    ensures a == b
  {
    assert a.Keys == b.Keys by {
      forall k ensures k in a <==> k in b {}
    }
  }
}
