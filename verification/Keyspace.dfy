/** Normalisation of Redis keys into the runtime namespace. */
module Keyspace {
  import opened GoStrings

  const DEFAULT_PREFIX := "deepoj"
  const LEGACY_PREFIX := "oj"

  /** The two environment variables, as they are set. */
  datatype Environment = Environment(prefixVar: string, envVar: string)

  function RedisKeyPrefix(e: Environment): string {
    var prefix := TrimSpace(e.prefixVar);
    if prefix == "" then DEFAULT_PREFIX else prefix
  }

  function RedisKeyEnv(e: Environment): (r: string)
    ensures Trimmed(r)
  {
    TrimSpace(e.envVar)
  }

  function RedisKeyNamespace(e: Environment): string {
    if RedisKeyEnv(e) == "" then RedisKeyPrefix(e) else RedisKeyPrefix(e) + ":" + RedisKeyEnv(e)
  }

  function NamespacedRedisKey(e: Environment, rawKey: string): string {
    var raw, ns := TrimSpace(rawKey), RedisKeyNamespace(e);
    var prefix, env := RedisKeyPrefix(e), RedisKeyEnv(e);
    if raw == "" then ns
    else if raw == ns || HasPrefix(raw, ns + ":") then raw
    else if raw == prefix || HasPrefix(raw, prefix + ":") then
      var remainder := TrimPrefix(TrimPrefix(raw, prefix), ":");
      if env != "" && remainder == env then ns
      else
        var business := TrimPrefix(if env != "" then TrimPrefix(remainder, env + ":") else remainder, ":");
        if business == "" then ns else ns + ":" + business
    else if HasPrefix(raw, LEGACY_PREFIX + ":") then
      var remainder := TrimPrefix(raw, LEGACY_PREFIX + ":");
      if remainder == "" then ns else ns + ":" + TrimPrefix(remainder, ":")
    else ns + ":" + TrimPrefix(raw, ":")
  }

  /** The namespace itself, or a key below it. */
  predicate InNamespace(e: Environment, key: string) {
    key == RedisKeyNamespace(e) || HasPrefix(key, RedisKeyNamespace(e) + ":")
  }

  lemma NamespaceTrimmed(e: Environment)
    ensures RedisKeyNamespace(e) != "" && Trimmed(RedisKeyNamespace(e))
  {
    hide IsSpace, TrimSpace, RedisKeyPrefix;
    PrefixTrimmed(e);
  }

  lemma PrefixTrimmed(e: Environment)
    ensures RedisKeyPrefix(e) != "" && Trimmed(RedisKeyPrefix(e))
  {
    hide IsSpace, TrimSpace;
    SmallLetterIsNotSpace('d');
    SmallLetterIsNotSpace('j');
  }

  lemma JoinTrimmed(ns: string, rest: string)
    requires ns != "" && Trimmed(ns) && (rest == "" || !IsSpace(rest[|rest| - 1]))
    ensures Trimmed(ns + ":" + rest)
    ensures HasPrefix(ns + ":" + rest, ns + ":")
  {
  }

  /** A raw key that is neither blank nor in the namespace is moved below it, or becomes it. */
  predicate Lands(e: Environment, key: string) {
    Trimmed(key) && InNamespace(e, key)
  }

  lemma RestLands(e: Environment, rest: string)
    requires rest == "" || !IsSpace(rest[|rest| - 1])
    ensures Lands(e, RedisKeyNamespace(e) + ":" + rest) && Lands(e, RedisKeyNamespace(e))
  {
    NamespaceTrimmed(e);
    JoinTrimmed(RedisKeyNamespace(e), rest);
  }

  /** Every key, however raw, lands in the current namespace, without white space at its ends. */
  lemma KeyLands(e: Environment, rawKey: string)
    ensures Lands(e, NamespacedRedisKey(e, rawKey))
  {
    hide IsSpace, RedisKeyNamespace, RedisKeyPrefix, RedisKeyEnv, TrimSpace, Lands, TrimPrefix;
    var raw, prefix, env := TrimSpace(rawKey), RedisKeyPrefix(e), RedisKeyEnv(e);
    var r1 := TrimPrefix(raw, prefix);
    var r2 := TrimPrefix(r1, ":");
    var r3 := if env != "" then TrimPrefix(r2, env + ":") else r2;
    EndTrimmed(raw, prefix);
    EndTrimmed(r1, ":");
    EndTrimmed(r2, env + ":");
    RestLands(e, TrimPrefix(r3, ":")) by {
      EndTrimmed(r3, ":");
    }
    var l := TrimPrefix(raw, LEGACY_PREFIX + ":");
    EndTrimmed(raw, LEGACY_PREFIX + ":");
    RestLands(e, TrimPrefix(l, ":")) by {
      EndTrimmed(l, ":");
    }
    RestLands(e, TrimPrefix(raw, ":")) by {
      EndTrimmed(raw, ":");
    }
    if InNamespace(e, raw) {
      TrimmedLands(e, raw);
    }
  }

  lemma TrimmedLands(e: Environment, key: string)
    requires Trimmed(key) && InNamespace(e, key)
    ensures Lands(e, key)
  {
  }

  lemma EndTrimmed(s: string, p: string)
    requires s == "" || !IsSpace(s[|s| - 1])
    ensures TrimPrefix(s, p) == "" || !IsSpace(TrimPrefix(s, p)[|TrimPrefix(s, p)| - 1])
  {
    hide IsSpace;
  }

  /** A key that already landed is left alone. */
  lemma LandedIsFixed(e: Environment, key: string)
    requires Lands(e, key)
    ensures NamespacedRedisKey(e, key) == key
  {
    NamespaceTrimmed(e);
    TrimSpaceKeepsTrimmed(key);
  }

  /** Idempotence: producers may normalise a key any number of times. */
  lemma NormalisationIsIdempotent(e: Environment, rawKey: string)
    ensures NamespacedRedisKey(e, NamespacedRedisKey(e, rawKey)) == NamespacedRedisKey(e, rawKey)
  {
    hide *;
    KeyLands(e, rawKey);
    LandedIsFixed(e, NamespacedRedisKey(e, rawKey));
  }

  /**
   The stream key of the repair loop, normalised when the configuration is loaded and again when it is
   used, is the one the dispatcher normalises once.
   */
  lemma ProducersAgreeOnStream(e: Environment, setting: string)
    ensures NamespacedRedisKey(e, NamespacedRedisKey(e, TrimSpace(setting))) == NamespacedRedisKey(e, TrimSpace(setting))
    ensures NamespacedRedisKey(e, TrimSpace(setting)) == NamespacedRedisKey(e, setting)
  {
    hide IsSpace, RedisKeyNamespace, RedisKeyPrefix, RedisKeyEnv, TrimSpace;
    NormalisationIsIdempotent(e, TrimSpace(setting));
    TrimSpaceKeepsTrimmed(TrimSpace(setting));
  }

  /** A business key that carries no namespace of its own. */
  predicate Plain(e: Environment, key: string) {
    var prefix, env := RedisKeyPrefix(e), RedisKeyEnv(e);
    && key != "" && Trimmed(key) && key[0] != ':'
    && key != prefix && !HasPrefix(key, prefix + ":") && !HasPrefix(key, LEGACY_PREFIX + ":")
    && (env == "" || (key != env && !HasPrefix(key, env + ":")))
  }

  /** However a plain key is spelt (bare, legacy, or under the bare prefix), it becomes the same key. */
  lemma SpellingsAgree(e: Environment, key: string)
    requires Plain(e, key)
    ensures NamespacedRedisKey(e, key) == RedisKeyNamespace(e) + ":" + key
    ensures NamespacedRedisKey(e, RedisKeyPrefix(e) + ":" + key) == RedisKeyNamespace(e) + ":" + key
    ensures var legacy := LEGACY_PREFIX + ":" + key;
      legacy != RedisKeyPrefix(e) && (RedisKeyPrefix(e) == LEGACY_PREFIX || !HasPrefix(legacy, RedisKeyPrefix(e) + ":")) ==>
        NamespacedRedisKey(e, legacy) == RedisKeyNamespace(e) + ":" + key
  {
    hide NamespacedRedisKey, Plain, RedisKeyPrefix, RedisKeyNamespace, HasPrefix;
    BareSpelling(e, key);
    PrefixedSpelling(e, key);
    if LEGACY_PREFIX + ":" + key != RedisKeyPrefix(e) {
      if RedisKeyPrefix(e) == LEGACY_PREFIX || !HasPrefix(LEGACY_PREFIX + ":" + key, RedisKeyPrefix(e) + ":") {
        LegacySpelling(e, key);
      }
    }
  }

  lemma BareSpelling(e: Environment, key: string)
    requires Plain(e, key)
    ensures NamespacedRedisKey(e, key) == RedisKeyNamespace(e) + ":" + key
  {
    hide IsSpace, RedisKeyPrefix, RedisKeyEnv, TrimSpace;
    TrimSpaceKeepsTrimmed(key);
    NotInNamespace(e, key, RedisKeyPrefix(e) + ":" + key);
  }

  lemma PrefixedSpelling(e: Environment, key: string)
    requires Plain(e, key)
    ensures NamespacedRedisKey(e, RedisKeyPrefix(e) + ":" + key) == RedisKeyNamespace(e) + ":" + key
  {
    hide IsSpace, RedisKeyPrefix, RedisKeyEnv, TrimSpace;
    var prefix := RedisKeyPrefix(e);
    PrefixTrimmed(e);
    JoinTrimmed(prefix, key);
    TrimSpaceKeepsTrimmed(prefix + ":" + key);
    assert TrimPrefix(TrimPrefix(prefix + ":" + key, prefix), ":") == key;
    NotInNamespace(e, key, prefix + ":" + key);
  }

  lemma LegacySpelling(e: Environment, key: string)
    requires Plain(e, key) && LEGACY_PREFIX + ":" + key != RedisKeyPrefix(e)
    requires RedisKeyPrefix(e) == LEGACY_PREFIX || !HasPrefix(LEGACY_PREFIX + ":" + key, RedisKeyPrefix(e) + ":")
    ensures NamespacedRedisKey(e, LEGACY_PREFIX + ":" + key) == RedisKeyNamespace(e) + ":" + key
  {
    hide IsSpace, RedisKeyPrefix, RedisKeyEnv, TrimSpace, Trimmed;
    if RedisKeyPrefix(e) == LEGACY_PREFIX {
      hide NamespacedRedisKey, Plain;
      PrefixedSpelling(e, key);
    } else {
      var legacy := LEGACY_PREFIX + ":" + key;
      LegacyTrimmed(key);
      TrimSpaceKeepsTrimmed(legacy);
      assert !InNamespace(e, legacy);
      assert TrimPrefix(legacy, LEGACY_PREFIX + ":") == key;
    }
  }

  lemma NotInNamespace(e: Environment, key: string, spelt: string)
    requires Plain(e, key) && spelt == RedisKeyPrefix(e) + ":" + key
    ensures !InNamespace(e, key)
    ensures RedisKeyEnv(e) != "" ==> !InNamespace(e, spelt)
  {
    hide RedisKeyPrefix, RedisKeyEnv, IsSpace;
    var prefix, env := RedisKeyPrefix(e), RedisKeyEnv(e);
    assert spelt[|prefix| + 1..] == key;
  }

  lemma LegacyTrimmed(key: string)
    requires key != "" && Trimmed(key)
    ensures Trimmed(LEGACY_PREFIX + ":" + key)
  {
    SmallLetterIsNotSpace('o');
  }

  /** White space around a key makes no difference. */
  lemma SpaceAroundIsIgnored(e: Environment, left: string, key: string, right: string)
    requires AllSpace(left) && AllSpace(right) && Trimmed(key)
    ensures NamespacedRedisKey(e, left + key + right) == NamespacedRedisKey(e, key)
  {
    hide IsSpace, TrimSpace, RedisKeyPrefix, RedisKeyEnv, RedisKeyNamespace;
    TrimSpaceOfPadded(left, key, right);
    TrimSpaceKeepsTrimmed(key);
  }

  /** The prefix itself, or something below it. */
  predicate UnderPrefix(e: Environment, key: string) {
    key == RedisKeyPrefix(e) || HasPrefix(key, RedisKeyPrefix(e) + ":")
  }

  /** A colon too many in front of a plain key is dropped, alone or after the legacy or the current prefix. */
  lemma ColonIsDropped(e: Environment, key: string)
    requires Plain(e, key) && RedisKeyPrefix(e)[0] != ':'
    ensures NamespacedRedisKey(e, ":" + key) == RedisKeyNamespace(e) + ":" + key
    ensures !UnderPrefix(e, LEGACY_PREFIX + "::" + key) ==>
      NamespacedRedisKey(e, LEGACY_PREFIX + "::" + key) == RedisKeyNamespace(e) + ":" + key
    ensures RedisKeyEnv(e) != "" && RedisKeyEnv(e)[0] != ':' ==>
      NamespacedRedisKey(e, RedisKeyPrefix(e) + "::" + key) == RedisKeyNamespace(e) + ":" + key
  {
    hide NamespacedRedisKey, RedisKeyPrefix, RedisKeyEnv, IsSpace, TrimSpace;
    PrefixTrimmed(e);
    ColonAlone(e, key);
    if !UnderPrefix(e, LEGACY_PREFIX + "::" + key) {
      ColonAfterLegacy(e, key);
    }
    if RedisKeyEnv(e) != "" && RedisKeyEnv(e)[0] != ':' {
      ColonAfterPrefix(e, key);
    }
  }

  lemma ColonAlone(e: Environment, key: string)
    requires Plain(e, key) && RedisKeyPrefix(e) != "" && RedisKeyPrefix(e)[0] != ':'
    ensures NamespacedRedisKey(e, ":" + key) == RedisKeyNamespace(e) + ":" + key
  {
    hide IsSpace, RedisKeyPrefix, RedisKeyEnv, TrimSpace;
    var raw := ":" + key;
    ColonIsNotSpace();
    TrimSpaceKeepsTrimmed(raw);
    assert raw[0] == ':' && RedisKeyNamespace(e)[0] == RedisKeyPrefix(e)[0];
    assert raw[1..] == key;
  }

  lemma ColonIsNotSpace()
    ensures !IsSpace(':')
  {
  }

  lemma ColonAfterLegacy(e: Environment, key: string)
    requires Plain(e, key) && !UnderPrefix(e, LEGACY_PREFIX + "::" + key)
    ensures NamespacedRedisKey(e, LEGACY_PREFIX + "::" + key) == RedisKeyNamespace(e) + ":" + key
  {
    hide IsSpace, RedisKeyPrefix, RedisKeyEnv, TrimSpace, Trimmed;
    var raw := LEGACY_PREFIX + "::" + key;
    LegacyTrimmed(":" + key) by {
      ColonTrimmed(key);
    }
    assert raw == LEGACY_PREFIX + ":" + (":" + key);
    TrimSpaceKeepsTrimmed(raw);
    NotNamespace(e, raw);
    assert TrimPrefix(raw, LEGACY_PREFIX + ":") == ":" + key && TrimPrefix(":" + key, ":") == key;
  }

  lemma ColonTrimmed(key: string)
    requires key != "" && Trimmed(key)
    ensures Trimmed(":" + key)
  {
    ColonIsNotSpace();
  }

  /** What does not lie under the prefix does not lie in the namespace. */
  lemma NotNamespace(e: Environment, raw: string)
    requires !UnderPrefix(e, raw)
    ensures !InNamespace(e, raw)
  {
    hide RedisKeyPrefix, RedisKeyEnv;
    var prefix, env := RedisKeyPrefix(e), RedisKeyEnv(e);
    if env != "" {
      assert prefix + ":" <= prefix + ":" + env;
    }
  }

  lemma ColonAfterPrefix(e: Environment, key: string)
    requires Plain(e, key) && RedisKeyPrefix(e) != "" && RedisKeyEnv(e) != "" && RedisKeyEnv(e)[0] != ':'
    ensures NamespacedRedisKey(e, RedisKeyPrefix(e) + "::" + key) == RedisKeyNamespace(e) + ":" + key
  {
    hide IsSpace, RedisKeyPrefix, RedisKeyEnv, TrimSpace, Trimmed, NamespacedRedisKey;
    var prefix, env := RedisKeyPrefix(e), RedisKeyEnv(e);
    var rest := ":" + key;
    assert prefix + "::" + key == prefix + ":" + rest;
    PrefixTrimmed(e);
    ColonTrimmed(key);
    JoinedIsTrimmed(prefix, rest);
    assert rest[0] == ':';
    OtherRest(e, rest);
    assert TrimPrefix(rest, ":") == key;
  }

  /** Under the prefix but not under the environment: one leading colon goes, and the rest moves below the namespace. */
  lemma OtherRest(e: Environment, rest: string)
    requires RedisKeyEnv(e) != "" && rest != "" && rest[0] != RedisKeyEnv(e)[0] && RedisKeyPrefix(e) != ""
    requires Trimmed(RedisKeyPrefix(e) + ":" + rest) && TrimPrefix(rest, ":") != ""
    ensures NamespacedRedisKey(e, RedisKeyPrefix(e) + ":" + rest) == RedisKeyNamespace(e) + ":" + TrimPrefix(rest, ":")
  {
    hide IsSpace, RedisKeyPrefix, RedisKeyEnv, TrimSpace, Trimmed;
    var prefix, env := RedisKeyPrefix(e), RedisKeyEnv(e);
    var raw := prefix + ":" + rest;
    TrimSpaceKeepsTrimmed(raw);
    assert raw[|prefix| + 1] == rest[0] && (prefix + ":" + env)[|prefix| + 1] == env[0];
    assert HasPrefix(raw, prefix + ":") && raw != RedisKeyNamespace(e) && !HasPrefix(raw, RedisKeyNamespace(e) + ":");
    assert TrimPrefix(TrimPrefix(raw, prefix), ":") == rest;
    assert (env + ":")[0] == env[0];
    assert rest != env && TrimPrefix(rest, env + ":") == rest;
  }

  lemma JoinedIsTrimmed(prefix: string, rest: string)
    requires prefix != "" && Trimmed(prefix) && rest != "" && Trimmed(rest)
    ensures Trimmed(prefix + ":" + rest)
  {
    hide IsSpace;
  }

  /** What names no key becomes the namespace itself. */
  lemma BareNamespace(e: Environment)
    ensures NamespacedRedisKey(e, "") == RedisKeyNamespace(e)
    ensures NamespacedRedisKey(e, RedisKeyPrefix(e)) == RedisKeyNamespace(e)
    ensures RedisKeyEnv(e) != "" ==> NamespacedRedisKey(e, RedisKeyPrefix(e) + ":") == RedisKeyNamespace(e)
    ensures RedisKeyPrefix(e) != LEGACY_PREFIX ==> NamespacedRedisKey(e, LEGACY_PREFIX + ":") == RedisKeyNamespace(e)
  {
    hide IsSpace, RedisKeyPrefix, RedisKeyEnv, TrimSpace;
    var prefix := RedisKeyPrefix(e);
    ColonIsNotSpace();
    SmallLetterIsNotSpace('o');
    PrefixTrimmed(e);
    TrimSpaceKeepsTrimmed("");
    TrimSpaceKeepsTrimmed(prefix);
    TrimSpaceKeepsTrimmed(prefix + ":");
    TrimSpaceKeepsTrimmed(LEGACY_PREFIX + ":");
    assert TrimPrefix(prefix, prefix) == "" && TrimPrefix(prefix + ":", prefix) == ":";
    assert TrimPrefix(LEGACY_PREFIX + ":", LEGACY_PREFIX + ":") == "";
  }

  /** The default prefix, and a legacy key with and without an environment. */
  lemma Defaults()
    ensures RedisKeyNamespace(Environment("", "")) == "deepoj" && RedisKeyNamespace(Environment("", "prod")) == "deepoj:prod"
    ensures NamespacedRedisKey(Environment("", ""), "oj:result:1") == "deepoj:result:1"
    ensures NamespacedRedisKey(Environment("", "prod"), "oj:result:1") == "deepoj:prod:result:1"
  {
    hide IsSpace, TrimSpace, NamespacedRedisKey;
    TrimSpaceKeepsTrimmed("");
    SmallLetterIsNotSpace('p');
    SmallLetterIsNotSpace('d');
    TrimSpaceKeepsTrimmed("prod");
    assert "deepoj" + ":" + "prod" == "deepoj:prod";
    DefaultKey("");
    DefaultKey("prod");
  }

  lemma DefaultKey(env: string)
    requires env == "" || env == "prod"
    requires RedisKeyPrefix(Environment("", env)) == "deepoj" && RedisKeyEnv(Environment("", env)) == env
    ensures NamespacedRedisKey(Environment("", env), "oj:result:1") == (if env == "" then "deepoj" else "deepoj:prod") + ":result:1"
  {
    hide IsSpace, TrimSpace, RedisKeyPrefix, RedisKeyEnv, NamespacedRedisKey;
    var e, key := Environment("", env), "result:1";
    assert "oj" + ":" + key == "oj:result:1" && "oj:result:1"[0] == 'o' && "deepoj:"[0] == 'd';
    PlainResult(e);
    LegacySpelling(e, key);
  }

  lemma PlainResult(e: Environment)
    requires RedisKeyPrefix(e) == "deepoj" && (RedisKeyEnv(e) == "" || RedisKeyEnv(e) == "prod")
    ensures Plain(e, "result:1")
  {
    hide TrimSpace, RedisKeyPrefix, RedisKeyEnv;
    var key := "result:1";
    assert key[0] == 'r' && key[7] == '1' && "deepoj"[0] == 'd' && "prod"[0] == 'p' && "prod:"[0] == 'p';
    assert "deepoj:"[0] == 'd' && "oj:"[0] == 'o';
  }

  /** Some key of the one environment and some key of the other are the same key. */
  ghost predicate ShareKeys(e1: Environment, e2: Environment) {
    exists raw1, raw2 :: NamespacedRedisKey(e1, raw1) == NamespacedRedisKey(e2, raw2)
  }

  /** The one namespace is the other, or continues it after a colon. */
  predicate Nested(ns1: string, ns2: string) {
    ns1 == ns2 || HasPrefix(ns1, ns2 + ":") || HasPrefix(ns2, ns1 + ":")
  }

  /** Two environments, under any prefixes, set or not, share keys exactly when their namespaces nest. */
  lemma KeysAreSharedIff(e1: Environment, e2: Environment)
    ensures ShareKeys(e1, e2) <==> Nested(RedisKeyNamespace(e1), RedisKeyNamespace(e2))
  {
    hide RedisKeyPrefix, RedisKeyEnv, RedisKeyNamespace, NamespacedRedisKey, IsSpace, TrimSpace, HasPrefix;
    if ShareKeys(e1, e2) {
      var raw1, raw2 :| NamespacedRedisKey(e1, raw1) == NamespacedRedisKey(e2, raw2);
      KeyLands(e1, raw1);
      KeyLands(e2, raw2);
      CommonKeyNests(NamespacedRedisKey(e1, raw1), RedisKeyNamespace(e1), RedisKeyNamespace(e2));
    }
    if Nested(RedisKeyNamespace(e1), RedisKeyNamespace(e2)) {
      var key := if HasPrefix(RedisKeyNamespace(e1), RedisKeyNamespace(e2) + ":") then RedisKeyNamespace(e1)
                 else RedisKeyNamespace(e2);
      NamespaceTrimmed(e1);
      NamespaceTrimmed(e2);
      LandedIsFixed(e1, key);
      LandedIsFixed(e2, key);
    }
  }

  lemma CommonKeyNests(key: string, ns1: string, ns2: string)
    requires key == ns1 || HasPrefix(key, ns1 + ":")
    requires key == ns2 || HasPrefix(key, ns2 + ":")
    ensures Nested(ns1, ns2)
  {
    assert ns1 <= key && ns2 <= key;
    if |ns1| < |ns2| {
      assert ns2[..|ns1| + 1] == key[..|ns1| + 1] == ns1 + ":";
    } else if |ns2| < |ns1| {
      assert ns1[..|ns2| + 1] == key[..|ns2| + 1] == ns2 + ":";
    }
  }

  predicate ColonFree(s: string) {
    ':' !in s
  }

  /** Under one prefix, two distinct non-empty environments share keys only if one continues the other after a colon. */
  lemma NestedUnderOnePrefix(e1: Environment, e2: Environment)
    requires RedisKeyPrefix(e1) == RedisKeyPrefix(e2) && RedisKeyEnv(e1) != "" && RedisKeyEnv(e2) != ""
    ensures Nested(RedisKeyNamespace(e1), RedisKeyNamespace(e2)) <==> Nested(RedisKeyEnv(e1), RedisKeyEnv(e2))
  {
    hide RedisKeyPrefix, RedisKeyEnv;
    var base, env1, env2 := RedisKeyPrefix(e1) + ":", RedisKeyEnv(e1), RedisKeyEnv(e2);
    SamePrefixOnBoth(base, env1, env2);
    SamePrefixOnBoth(base, env2, env1);
  }

  lemma SamePrefixOnBoth(base: string, a: string, b: string)
    ensures base + a == base + b <==> a == b
    ensures HasPrefix(base + a, base + b + ":") <==> HasPrefix(a, b + ":")
  {
    assert (base + a)[|base|..] == a && (base + b)[|base|..] == b;
    assert base + b + ":" == base + (b + ":");
    if HasPrefix(base + a, base + b + ":") {
      assert a[..|b| + 1] == (base + a)[|base|..|base| + |b| + 1] == b + ":";
    }
    if HasPrefix(a, b + ":") {
      assert (base + a)[..|base| + |b| + 1] == base + a[..|b| + 1];
    }
  }

  /** Under one prefix, two distinct environments without a colon never share a key. */
  lemma EnvironmentsAreDisjoint(e1: Environment, e2: Environment)
    requires RedisKeyPrefix(e1) == RedisKeyPrefix(e2)
    requires RedisKeyEnv(e1) != "" && RedisKeyEnv(e2) != "" && RedisKeyEnv(e1) != RedisKeyEnv(e2)
    requires ColonFree(RedisKeyEnv(e1)) && ColonFree(RedisKeyEnv(e2))
    ensures !ShareKeys(e1, e2)
  {
    hide RedisKeyPrefix, RedisKeyEnv, RedisKeyNamespace, ShareKeys;
    KeysAreSharedIff(e1, e2);
    NestedUnderOnePrefix(e1, e2);
    var env1, env2 := RedisKeyEnv(e1), RedisKeyEnv(e2);
    assert (env2 + ":")[|env2|] == ':' && (env1 + ":")[|env1|] == ':';
  }

  /** Without an environment the namespace is the bare prefix, which every environment under it shares. */
  lemma UnsetEnvironmentMeetsAll(e1: Environment, e2: Environment)
    requires RedisKeyPrefix(e1) == RedisKeyPrefix(e2) && RedisKeyEnv(e1) == ""
    ensures ShareKeys(e1, e2)
  {
    hide RedisKeyPrefix, RedisKeyEnv, ShareKeys;
    KeysAreSharedIff(e1, e2);
    assert RedisKeyEnv(e2) != "" ==> RedisKeyPrefix(e2) + ":" <= RedisKeyNamespace(e2);
  }
}
